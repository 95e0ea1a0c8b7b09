/**
 The round-robin scheduler of the coroutine library. The wait queue is a ring through the coroutines'
 list nodes; coroutine `i` has node `i`, and the head of the queue is one more node.
 */
module Coroutine {
  import opened Counting
  import opened Lists
  import opened Options

  const MAX_COROUTINE := 1024
  const HEAD := MAX_COROUTINE

  datatype CoState = Idle | Running | Dead

  // ---- the queue ----

  /** The queue without the coroutine at position `k`. */
  function RemovedAt(q: seq<nat>, k: nat): seq<nat>
    requires k < |q|
  {
    q[..k] + q[k + 1..]
  }

  class Scheduler {
    const lists: ListHeads
    var state: seq<CoState>     // of the coroutines created so far
    var running: Option<nat>
    ghost var queue: seq<nat>   // the wait queue, first to run first

    /** The links hold the queue. */
    ghost predicate Linked()
      reads this, lists
    {
      && |lists.next| == MAX_COROUTINE + 1 && |state| <= MAX_COROUTINE
      && (forall k :: 0 <= k < |queue| ==> queue[k] < |state|)
      && Ring(lists.next, lists.prev, [HEAD] + queue)
    }

    /** The queue holds exactly the coroutines that are not dead, once each. */
    ghost predicate Valid()
      reads this, lists
    {
      Linked() && Distinct(queue) && (forall i: nat :: i in queue <==> i < |state| && !state[i].Dead?)
    }

    constructor ()
      ensures Valid() && queue == [] && state == [] && running == None && fresh(lists)
    {
      lists := new ListHeads(MAX_COROUTINE + 1);
      state, running, queue := [], None, [];
      new;
      lists.InitListHead(HEAD);
      assert [HEAD] + queue == [HEAD];
    }

    /** A new coroutine in the first slot that is free, at the end of the queue. */
    method CreateCoroutine() returns (i: nat)
      requires Valid() && |queue| < 1024
      modifies this, lists
      ensures Valid() && queue == old(queue) + [i] && i !in old(queue) && running == old(running)
      ensures Enabled(old(queue), Create(i)) && queue == Next(old(queue), Create(i))
      ensures i <= |old(state)| && (forall k :: 0 <= k < i ==> !old(state)[k].Dead?)
      ensures state == if i == |old(state)| then old(state) + [Idle] else old(state)[i := Idle]
    {
      hide Ring;
      i := 0;
      while i < |state|
        invariant 0 <= i <= |state| && forall k :: 0 <= k < i ==> !state[k].Dead?
      {
        if state[i].Dead? { break; }
        i := i + 1;
      }
      if i == |state| {
        AllLive(queue, |state|);
        state := state + [Idle];
      } else {
        state := state[i := Idle];
      }
      lists.ListAppend(i, HEAD, [HEAD] + queue);
      assert [HEAD] + queue + [i] == [HEAD] + (queue + [i]);
      queue := queue + [i];
    }

    /** The first coroutine in the queue that is not dead, moved to the end; None when there is none. */
    method DefaultSchedPolicy() returns (r: Option<nat>, ghost k: nat)
      requires Linked() && Distinct(queue)
      modifies `queue, lists
      ensures Linked() && Distinct(queue)
      ensures r.None? ==> queue == old(queue) && forall j :: 0 <= j < |queue| ==> state[queue[j]].Dead?
      ensures r.Some? ==>
        && k < |old(queue)| && r.value == old(queue)[k] && r.value < |state| && !state[r.value].Dead?
        && (forall j :: 0 <= j < k ==> old(queue)[j] < |state| && state[old(queue)[j]].Dead?)
        && queue == RemovedAt(old(queue), k) + [r.value]
    {
      ghost var cycle := [HEAD] + queue;
      k := 0;
      NextNode(lists.next, lists.prev, queue, 0);
      var elem := lists.next[HEAD];
      while elem != HEAD
        invariant 0 <= k <= |queue| && elem == (if k < |queue| then queue[k] else HEAD) && Linked() && queue == old(queue)
        invariant forall j :: 0 <= j < k ==> state[queue[j]].Dead?
        decreases |queue| - k
      {
        hide Ring;
        assert k < |queue|;
        if state[elem].Running? || state[elem].Idle? {
          MoveToEnd(elem, k);
          return Some(elem), k;
        }
        NextNode(lists.next, lists.prev, queue, k + 1);
        elem := lists.next[elem];
        k := k + 1;
      }
      r := None;
    }

    /** `list_del` of the node at position `k`, then `list_append`. */
    method MoveToEnd(elem: nat, ghost k: nat)
      requires Linked() && Distinct(queue) && k < |queue| && elem == queue[k]
      modifies `queue, lists
      ensures Linked() && Distinct(queue) && queue == RemovedAt(old(queue), k) + [elem]
    {
      hide Ring;
      ghost var q := RemovedAt(queue, k);
      lists.ListDel(elem, [HEAD] + queue, k + 1);
      assert Removed([HEAD] + queue, k + 1) == [HEAD] + q;
      MovedDistinct(queue, k);
      lists.ListAppend(elem, HEAD, [HEAD] + q);
      assert [HEAD] + q + [elem] == [HEAD] + (q + [elem]);
      queue := q + [elem];
    }

    /** The part of `schedule` before the jump: the first coroutine in the queue runs next. */
    method Schedule() returns (r: Option<nat>)
      requires Valid()
      modifies this, lists
      ensures Valid()
      ensures r.None? <==> old(queue) == []
      ensures r.None? ==> queue == old(queue) && state == old(state) && running == old(running)
      ensures r.Some? ==> r.value == old(queue)[0] && running == r && queue == old(queue)[1..] + [r.value]
      ensures r.Some? ==> Dispatches(old(queue), Dispatch, r.value) && queue == Next(old(queue), Dispatch)
      ensures r.Some? ==> r.value < |old(state)| && state == old(state)[r.value := Running]
    {
      hide Ring;
      ghost var k;
      ghost var q := queue;
      r, k := DefaultSchedPolicy();
      if r.Some? {
        FirstLive(q, state, k);
        Rotated(q);
        running := r;
        if state[r.value].Idle? {
          state := state[r.value := Running];
        }
        assert state == old(state)[r.value := Running];
      } else {
        NoneLive(q, state);
      }
    }

    /** The running coroutine is dead and leaves the queue. */
    method ExitCoroutine(ghost k: nat)
      requires Valid() && k < |queue| && running == Some(queue[k])
      modifies this, lists
      ensures Valid() && running == old(running) && state == old(state)[running.value := Dead]
      ensures queue == old(queue)[..k] + old(queue)[k + 1..]
      ensures Enabled(old(queue), Exit(k)) && queue == Next(old(queue), Exit(k))
    {
      hide Ring;
      var c := running.value;
      MovedDistinct(queue, k);
      lists.ListDel(c, [HEAD] + queue, k + 1);
      assert Removed([HEAD] + queue, k + 1) == [HEAD] + RemovedAt(queue, k);
      state := state[c := Dead];
      queue := RemovedAt(queue, k);
    }
  }

  lemma AllLive(q: seq<nat>, n: nat)
    requires Distinct(q) && |q| < MAX_COROUTINE && (forall i: nat :: i < n ==> i in q)
    ensures n < MAX_COROUTINE
  {
    DistinctSize(q);
    assert Below(n) <= Elements(q);
    SubsetSize(Below(n), Elements(q));
  }

  /** Following `next` from a node of the queue leads to the one behind it, and from the last one back to the head. */
  lemma NextNode(next: seq<nat>, prev: seq<nat>, q: seq<nat>, k: nat)
    requires Ring(next, prev, [HEAD] + q) && k <= |q|
    ensures var cycle := [HEAD] + q; cycle[k] < |next| && next[cycle[k]] == if k < |q| then q[k] else HEAD
  {
    var cycle := [HEAD] + q;
    assert next[cycle[k]] == After(cycle, k);
  }

  lemma MovedDistinct(q: seq<nat>, k: nat)
    requires Distinct(q) && k < |q|
    ensures q[k] !in RemovedAt(q, k) && Distinct(RemovedAt(q, k)) && Distinct(RemovedAt(q, k) + [q[k]])
    ensures forall i :: i in RemovedAt(q, k) <==> i in q && i != q[k]
    ensures forall i :: i in RemovedAt(q, k) + [q[k]] <==> i in q
  {
    var r := RemovedAt(q, k);
    forall i | i in q && i != q[k] ensures i in r {
      var j :| 0 <= j < |q| && q[j] == i;
      assert i == r[if j < k then j else j - 1];
    }
  }

  lemma FirstLive(q: seq<nat>, state: seq<CoState>, k: nat)
    requires k < |q| && (forall i: nat :: i in q <==> i < |state| && !state[i].Dead?)
    requires forall j :: 0 <= j < k ==> q[j] < |state| && state[q[j]].Dead?
    ensures k == 0
  {
    assert q[0] in q;
  }

  lemma NoneLive(q: seq<nat>, state: seq<CoState>)
    requires (forall i: nat :: i in q <==> i < |state| && !state[i].Dead?) && forall j :: 0 <= j < |q| ==> q[j] < |state| && state[q[j]].Dead?
    ensures q == []
  {
    if q != [] {
      FirstIn(q);
      assert false;
    }
  }

  lemma FirstIn(q: seq<nat>)
    requires q != []
    ensures q[0] in q
  {
  }

  lemma Rotated(q: seq<nat>)
    requires q != [] && Distinct(q)
    ensures RemovedAt(q, 0) == q[1..] && forall i :: i in q[1..] + [q[0]] <==> i in q
  {
    assert RemovedAt(q, 0) == q[1..];
    MovedDistinct(q, 0);
  }

  // ---- runs ----

  /** What happens to the queue: the first coroutine is dispatched, one is created, or one at a position exits. */
  datatype Event = Dispatch | Create(i: nat) | Exit(k: nat)

  predicate Enabled(q: seq<nat>, e: Event) {
    match e
    case Dispatch => q != []
    case Create(i) => i !in q
    case Exit(k) => k < |q|
  }

  function Next(q: seq<nat>, e: Event): seq<nat>
    requires Enabled(q, e)
  {
    match e
    case Dispatch => q[1..] + [q[0]]
    case Create(i) => q + [i]
    case Exit(k) => RemovedAt(q, k)
  }

  ghost predicate IsRun(qs: seq<seq<nat>>, es: seq<Event>) {
    |qs| == |es| + 1 && Distinct(qs[0]) && forall n :: 0 <= n < |es| ==> Enabled(qs[n], es[n]) && qs[n + 1] == Next(qs[n], es[n])
  }

  predicate Dispatches(q: seq<nat>, e: Event, c: nat) {
    e.Dispatch? && q != [] && q[0] == c
  }

  /** `d` comes before `c` in the queue. */
  ghost predicate Ahead(q: seq<nat>, d: nat, c: nat) {
    exists i, j :: 0 <= i < j < |q| && q[i] == d && q[j] == c
  }

  lemma NextDistinct(q: seq<nat>, e: Event)
    requires Distinct(q) && Enabled(q, e)
    ensures Distinct(Next(q, e))
  {
    match e
    case Dispatch => Rotated(q); MovedDistinct(q, 0);
    case Create(i) =>
    case Exit(k) => MovedDistinct(q, k);
  }

  lemma {:induction false} RunDistinct(qs: seq<seq<nat>>, es: seq<Event>, n: nat)
    requires IsRun(qs, es) && n <= |es|
    ensures Distinct(qs[n])
  {
    if n > 0 {
      RunDistinct(qs, es, n - 1);
      NextDistinct(qs[n - 1], es[n - 1]);
    }
  }

  /** The order of two coroutines changes only when the first of them is dispatched. */
  lemma OrderKept(q: seq<nat>, e: Event, d: nat, c: nat)
    requires Distinct(q) && Enabled(q, e) && Ahead(q, d, c) && !Dispatches(q, e, d) && (e.Exit? ==> q[e.k] != d && q[e.k] != c)
    ensures Ahead(Next(q, e), d, c)
  {
    var i, j :| 0 <= i < j < |q| && q[i] == d && q[j] == c;
    hide Ahead, Distinct;
    var r := Next(q, e);
    match e
    case Dispatch =>
      assert i > 0;
      assert r[i - 1] == d && r[j - 1] == c;
      AheadBy(r, i - 1, j - 1);
    case Create(x) =>
      AheadBy(r, i, j);
    case Exit(k) =>
      RemovedIndex(q, k, i);
      RemovedIndex(q, k, j);
      AheadBy(r, if i < k then i else i - 1, if j < k then j else j - 1);
  }

  lemma RemovedIndex(q: seq<nat>, k: nat, i: nat)
    requires k < |q| && i < |q| && i != k
    ensures var x := if i < k then i else i - 1; x < |RemovedAt(q, k)| && RemovedAt(q, k)[x] == q[i]
  {
  }

  lemma AheadBy(r: seq<nat>, i: nat, j: nat)
    requires i < j < |r|
    ensures Ahead(r, r[i], r[j])
  {
  }

  lemma DispatchedLast(q: seq<nat>, c: nat, d: nat)
    requires Distinct(q) && q != [] && q[0] == c && d in q && d != c
    ensures Ahead(Next(q, Dispatch), d, c)
  {
    var r := Next(q, Dispatch);
    var i :| 0 <= i < |q| && q[i] == d;
    assert r[i - 1] == d && r[|q| - 1] == c;
  }

  /** How often `d` is dispatched from event `i` to event `j`. */
  function Count(qs: seq<seq<nat>>, es: seq<Event>, d: nat, i: nat, j: nat): nat
    requires i <= j <= |es| && |qs| == |es| + 1
  {
    if i == j then 0 else Count(qs, es, d, i, j - 1) + if Dispatches(qs[j - 1], es[j - 1], d) then 1 else 0
  }

  /** Neither coroutine exits from event `i` to event `j`. */
  ghost predicate BothStay(qs: seq<seq<nat>>, es: seq<Event>, c: nat, d: nat, i: nat, j: nat)
    requires j <= |es| < |qs|
  {
    forall n :: i <= n < j && es[n].Exit? && es[n].k < |qs[n]| ==> qs[n][es[n].k] != c && qs[n][es[n].k] != d
  }

  /** Since `c` was dispatched, `d` has run once if it is behind `c` and not at all if it is ahead. */
  lemma {:induction false} OneTurn(qs: seq<seq<nat>>, es: seq<Event>, c: nat, d: nat, i: nat, n: nat)
    requires IsRun(qs, es) && i < n <= |es| && c != d && d in qs[i] && Dispatches(qs[i], es[i], c)
    requires (forall m :: i < m < n ==> !Dispatches(qs[m], es[m], c)) && BothStay(qs, es, c, d, i, n)
    ensures (Ahead(qs[n], d, c) && Count(qs, es, d, i + 1, n) == 0) || (Ahead(qs[n], c, d) && Count(qs, es, d, i + 1, n) == 1)
  {
    hide Ahead, Distinct, Next;
    RunDistinct(qs, es, n - 1);
    if n == i + 1 {
      assert qs[n] == Next(qs[i], es[i]);
      DispatchedLast(qs[i], c, d);
    } else {
      OneTurn(qs, es, c, d, i, n - 1);
      var q, e := qs[n - 1], es[n - 1];
      assert Enabled(q, e) && qs[n] == Next(q, e);
      if Ahead(q, c, d) {
        BehindNotFirst(q, c, d);
        OrderKept(q, e, c, d);
      } else if Dispatches(q, e, d) {
        AheadIn(q, d, c);
        DispatchedLast(q, d, c);
      } else {
        OrderKept(q, e, d, c);
      }
    }
  }

  lemma BehindNotFirst(q: seq<nat>, c: nat, d: nat)
    requires Distinct(q) && Ahead(q, c, d)
    ensures q != [] && q[0] != d && !Ahead(q, d, c)
  {
  }

  lemma AheadIn(q: seq<nat>, d: nat, c: nat)
    requires Ahead(q, d, c)
    ensures d in q && c in q
  {
  }

  /** Between two consecutive dispatches of a coroutine, every other one that stays runs exactly once. */
  lemma RoundRobin(qs: seq<seq<nat>>, es: seq<Event>, c: nat, d: nat, i: nat, j: nat)
    requires IsRun(qs, es) && i < j < |es| && c != d && d in qs[i] && Dispatches(qs[i], es[i], c) && Dispatches(qs[j], es[j], c)
    requires (forall m :: i < m < j ==> !Dispatches(qs[m], es[m], c)) && BothStay(qs, es, c, d, i, j)
    ensures Count(qs, es, d, i + 1, j) == 1
  {
    OneTurn(qs, es, c, d, i, j);
    RunDistinct(qs, es, j);
    if Ahead(qs[j], d, c) { BehindNotFirst(qs[j], d, c); }
  }
}
