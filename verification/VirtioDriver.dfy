/** The functions of virtio_disk.c on the structures they share with the device. */
module VirtioDriver {
  import opened Counting
  import opened Options
  import opened Virtio

  class Driver {
    var free: seq<bool>
    var desc: seq<Desc>
    var ops: seq<Op>
    var info: seq<Info>
    var avail: seq<nat>
    var availIdx: nat
    var used: seq<nat>
    var doneIdx: nat       // the device's count in the used ring
    var usedIdx: nat       // how far the driver has looked in it
    var onDisk: set<nat>   // the buffers whose disk flag is set
    ghost var device: (nat, map<nat, nat>, map<nat, nat>)  // what only the device changes

    ghost function Now(): Disk
      reads this
    {
      Disk(free, desc, ops, info, avail, availIdx, used, doneIdx, usedIdx, device.0, onDisk, device.1, device.2)
    }

    /** Free descriptors are clear, as `free_desc` leaves them. */
    ghost predicate Valid()
      reads this
    {
      Shaped(Now()) && forall i :: 0 <= i < NUM && free[i] ==> desc[i] == CLEAR
    }

    method AllocDesc() returns (r: Option<nat>)
      requires |free| == NUM
      modifies this`free
      ensures r == FirstFree(old(free), 0)
      ensures free == if r.Some? then old(free)[r.value := false] else old(free)
    {
      var i := 0;
      while i < NUM
        invariant 0 <= i <= NUM && free == old(free) && FirstFree(free, 0) == FirstFree(free, i)
      {
        if free[i] {
          free := free[i := false];
          return Some(i);
        }
        i := i + 1;
      }
      r := None;
    }

    /** Freeing what is free already would be a panic. */
    method FreeDesc(i: nat)
      requires Shaped(Now()) && i < NUM && !free[i]
      modifies this`desc, this`free
      ensures Now() == Virtio.FreeDesc(old(Now()), i)
    {
      desc := desc[i := CLEAR];
      free := free[i := true];
    }

    /** Follow the chain from `i` on, freeing each descriptor. */
    method FreeChain(i: nat, ghost chain: seq<nat>)
      requires Shaped(Now()) && Linked(desc, chain) && chain[0] == i
      requires forall k :: 0 <= k < |chain| ==> !free[chain[k]]
      modifies this`desc, this`free
      ensures Now() == FreedAll(old(Now()), chain, |chain|)
    {
      var j := i;
      ghost var n := 0;
      while true
        invariant 0 <= n < |chain| && j == chain[n]
        invariant Now() == FreedAll(old(Now()), chain, n)
        decreases |chain| - n
      {
        FreedUntouched(old(Now()), chain, n, n);
        var flag, next := desc[j].flags, desc[j].next;
        FreeDesc(j);
        n := n + 1;
        if flag % 2 != F_NEXT { break; }
        j := next;
      }
    }

    /** Three descriptors, or none and everything as before. */
    method Alloc3Desc() returns (r: Option<Three>)
      requires Valid()
      modifies this`desc, this`free
      ensures r == Pick(old(free)) && Valid() && desc == old(desc)
      ensures r.Some? ==> free == old(free)[r.value.a := false][r.value.b := false][r.value.c := false]
      ensures r.None? ==> free == old(free)
    {
      var idx: seq<nat> := [];
      ghost var free0 := free;
      while |idx| < 3
        invariant |idx| <= 3 && Shaped(Now()) && desc == old(desc) && Picked(free0, idx) && From(idx) <= NUM
        invariant free == Without(free0, idx)
      {
        PickNext(free0, idx);
        var d := AllocDesc();
        if d.None? {
          NotPicked(free0, idx);
          var j := 0;
          while j < |idx|
            invariant 0 <= j <= |idx| && Shaped(Now()) && desc == old(desc) && free == Without(free0, idx[j..])
          {
            Returned(free0, idx, j);
            FreeDesc(idx[j]);
            j := j + 1;
          }
          return None;
        }
        PickedMore(free0, idx, d.value);
        idx := idx + [d.value];
      }
      PickedThree(free0, idx);
      r := Some(Three(idx[0], idx[1], idx[2]));
    }

    /** The descriptors `t` made a chain for the device to follow. */
    method FormatChain(t: Three, b: nat, write: bool, blockno: nat)
      requires Shaped(Now()) && Within(t) && !free[t.a] && !free[t.b] && !free[t.c]
      modifies this`ops, this`desc, this`info
      ensures Now() == Format(old(Now()), t, b, write, blockno)
    {
      assert free == free[t.a := false][t.b := false][t.c := false];
      ops := ops[t.a := Op(write, blockno * 2)];
      desc := desc[t.a := Desc(Request(t.a), 16, F_NEXT, t.b)];
      var flags := if write then 0 else F_WRITE;
      desc := desc[t.b := Desc(Buffer(b), 1024, flags + F_NEXT, t.c)];
      desc := desc[t.c := Desc(Status(t.a), 1, F_WRITE, 0)];
      info := info[t.a := Info(Some(b), 255)];
    }

    /** The part of `virtio_disk_rw` between the allocation and the wait. */
    method Publish(t: Three, b: nat, write: bool, blockno: nat)
      requires Shaped(Now()) && Within(t) && !free[t.a] && !free[t.b] && !free[t.c]
      modifies this
      ensures Now() == Submitted(old(Now()), t, b, write, blockno)
    {
      hide Format;
      FormatChain(t, b, write, blockno);
      onDisk := onDisk + {b};
      avail := avail[availIdx % NUM := t.a];
      availIdx := (availIdx + 1) % WRAP;
    }

    /** The end of `virtio_disk_rw`, once the buffer is done. */
    method Retire(t: Three, b: nat, write: bool)
      requires Shaped(Now()) && Within(t) && !free[t.a] && !free[t.b] && !free[t.c]
      requires desc[t.a].flags % 2 == F_NEXT && desc[t.a].next == t.b && desc[t.b].flags % 2 == F_NEXT && desc[t.b].next == t.c
      requires desc[t.c].flags % 2 != F_NEXT
      modifies this
      ensures Now() == Finished(old(Now()), t)
    {
      info := info[t.a := info[t.a].(b := None)];
      ghost var d := Now();
      FreeChain(t.a, [t.a, t.b, t.c]);
      FreedThree(d, [t.a, t.b, t.c]);
    }

    /** One turn of the loop of `virtio_disk_intr`. */
    method Consume() returns (ok: bool)
      requires Shaped(Now()) && AllKnown(Now()) && usedIdx != doneIdx
      modifies this`usedIdx, this`onDisk
      ensures KnownAt(old(Now()), old(usedIdx)) && (ok <==> ZeroAt(old(Now()), old(usedIdx)))
      ensures !ok ==> Now() == old(Now())
      ensures ok ==> Now() == Consumed(old(Now())) && Behind(Now()) == Behind(old(Now())) - 1 && AllKnown(Now())
      ensures ok ==> (AllZero(Now()) <==> AllZero(old(Now())))
    {
      hide AllKnown, Behind, AllZero;
      ConsumedRest(Now());
      var id := used[usedIdx % NUM];
      if info[id].status != 0 { return false; }
      ok := true;
      var b := info[id].b;
      onDisk := onDisk - {b.value};
      usedIdx := (usedIdx + 1) % WRAP;
    }

    /**
     The loop of `virtio_disk_intr`. It consumes every completion, or panics, `false`, at the first that
     carries an error, with those before it consumed.
     */
    method Intr() returns (ok: bool, ghost n: nat)
      requires Shaped(Now()) && AllKnown(Now())
      modifies this`usedIdx, this`onDisk
      ensures Now() == ConsumedAll(old(Now()), n) && (ok <==> AllZero(old(Now())))
      ensures ok ==> n == Behind(old(Now())) && usedIdx == doneIdx
      ensures !ok ==> n < Behind(old(Now())) && KnownAt(Now(), usedIdx) && !ZeroAt(Now(), usedIdx)
    {
      n := 0;
      ghost var d := Now();
      hide ConsumedAll, AllKnown, AllZero, Consumed, Behind;
      ConsumedNone(d);
      while usedIdx != doneIdx
        invariant 0 <= n <= Behind(d) && Now() == ConsumedAll(d, n) && Behind(Now()) == Behind(d) - n && AllKnown(Now())
        invariant AllZero(Now()) <==> AllZero(d)
        decreases Behind(Now())
      {
        ConsumedMore(d, n);
        FirstZero(Now());
        ok := Consume();
        if !ok { return; }
        n := n + 1;
      }
      NotBehind(Now());
      ok := true;
    }
  }

  // ---- chains ----

  /** `chain` follows the next fields, and its last descriptor is the last. */
  ghost predicate Linked(desc: seq<Desc>, chain: seq<nat>) {
    && 0 < |chain| && Distinct(chain) && (forall k :: 0 <= k < |chain| ==> chain[k] < |desc|)
    && (forall k :: 0 <= k < |chain| ==> (desc[chain[k]].flags % 2 == F_NEXT <==> k + 1 < |chain|))
    && (forall k :: 0 <= k < |chain| - 1 ==> desc[chain[k]].next == chain[k + 1])
  }

  ghost function FreedAll(d: Disk, chain: seq<nat>, n: nat): (e: Disk)
    requires Shaped(d) && n <= |chain| && forall k :: 0 <= k < |chain| ==> chain[k] < NUM
    ensures Shaped(e)
  {
    if n == 0 then d else Virtio.FreeDesc(FreedAll(d, chain, n - 1), chain[n - 1])
  }

  lemma {:induction false} FreedUntouched(d: Disk, chain: seq<nat>, n: nat, k: nat)
    requires Shaped(d) && n <= k < |chain| && Distinct(chain) && forall k :: 0 <= k < |chain| ==> chain[k] < NUM
    ensures FreedAll(d, chain, n).desc[chain[k]] == d.desc[chain[k]] && FreedAll(d, chain, n).free[chain[k]] == d.free[chain[k]]
  {
    if n > 0 { FreedUntouched(d, chain, n - 1, k); }
  }

  lemma FreedThree(d: Disk, c: seq<nat>)
    requires Shaped(d) && |c| == 3 && forall k :: 0 <= k < |c| ==> c[k] < NUM
    ensures FreedAll(d, c, 3) == Virtio.FreeDesc(Virtio.FreeDesc(Virtio.FreeDesc(d, c[0]), c[1]), c[2])
  {
    hide FreedAll, Virtio.FreeDesc;
    FreedOne(d, c, 0);
    FreedOne(d, c, 1);
    FreedOne(d, c, 2);
  }

  lemma FreedOne(d: Disk, chain: seq<nat>, n: nat)
    requires Shaped(d) && n < |chain| && forall k :: 0 <= k < |chain| ==> chain[k] < NUM
    ensures FreedAll(d, chain, 0) == d && FreedAll(d, chain, n + 1) == Virtio.FreeDesc(FreedAll(d, chain, n), chain[n])
  {
  }

  // ---- allocating ----

  /** Where the search goes on. */
  ghost function From(idx: seq<nat>): nat {
    if idx == [] then 0 else idx[|idx| - 1] + 1
  }

  /** `idx` are the first free descriptors, in order. */
  ghost predicate Picked(free: seq<bool>, idx: seq<nat>) {
    idx == [] || (var rest := idx[..|idx| - 1]; Picked(free, rest) && FirstFree(free, From(rest)) == Some(idx[|idx| - 1]))
  }

  function Without(free: seq<bool>, idx: seq<nat>): (r: seq<bool>)
    ensures |r| == |free| && forall i: nat :: i < |free| ==> r[i] == (free[i] && i !in idx)
  {
    seq(|free|, i requires 0 <= i < |free| => free[i] && i !in idx)
  }

  /** What has been picked is what is free below where the search goes on. */
  lemma {:induction false} PickedBelow(free: seq<bool>, idx: seq<nat>, i: nat)
    requires Picked(free, idx) && i < |free|
    ensures i < From(idx) && free[i] ==> i in idx
    ensures i in idx ==> i < From(idx) && free[i]
  {
    if idx != [] {
      var rest := idx[..|idx| - 1];
      PickedBelow(free, rest, i);
      assert idx == rest + [idx[|idx| - 1]];
    }
  }

  lemma {:induction false} FirstFreeSame(a: seq<bool>, b: seq<bool>, i: nat)
    requires |a| == |b| && forall k :: i <= k < |a| ==> a[k] == b[k]
    ensures FirstFree(a, i) == FirstFree(b, i)
    decreases |a| - i
  {
    if i < |a| { FirstFreeSame(a, b, i + 1); }
  }

  lemma {:induction false} FirstFreeSkips(a: seq<bool>, i: nat, j: nat)
    requires i <= j <= |a| && forall k :: i <= k < j ==> !a[k]
    ensures FirstFree(a, i) == FirstFree(a, j)
    decreases j - i
  {
    if i < j { FirstFreeSkips(a, i + 1, j); }
  }

  lemma PickNext(free: seq<bool>, idx: seq<nat>)
    requires Picked(free, idx) && From(idx) <= |free|
    ensures FirstFree(Without(free, idx), 0) == FirstFree(free, From(idx))
  {
    var left := Without(free, idx);
    forall i: nat | i < |free| ensures left[i] == (free[i] && From(idx) <= i) { PickedBelow(free, idx, i); }
    FirstFreeSkips(left, 0, From(idx));
    FirstFreeSame(left, free, From(idx));
  }

  lemma PickedMore(free: seq<bool>, idx: seq<nat>, d: nat)
    requires Picked(free, idx) && FirstFree(free, From(idx)) == Some(d)
    ensures Picked(free, idx + [d]) && From(idx + [d]) <= |free|
    ensures Without(free, idx + [d]) == Without(free, idx)[d := false]
  {
    assert (idx + [d])[..|idx|] == idx;
    var a, b := Without(free, idx + [d]), Without(free, idx)[d := false];
    hide FirstFree, Picked, Without;
    assert forall i: nat :: i < |free| ==> a[i] == b[i];
  }

  lemma PickedSteps(free: seq<bool>, idx: seq<nat>)
    requires Picked(free, idx)
    ensures |idx| > 0 ==> Picked(free, idx[..|idx| - 1]) && FirstFree(free, From(idx[..|idx| - 1])) == Some(idx[|idx| - 1])
  {
  }

  lemma PickedUpTo3(free: seq<bool>, idx: seq<nat>)
    requires Picked(free, idx) && |idx| <= 3
    ensures |idx| > 0 ==> FirstFree(free, 0) == Some(idx[0])
    ensures |idx| > 1 ==> FirstFree(free, idx[0] + 1) == Some(idx[1])
    ensures |idx| > 2 ==> FirstFree(free, idx[1] + 1) == Some(idx[2])
  {
    hide Picked, FirstFree;
    PickedSteps(free, idx);
    if |idx| > 1 { PickedSteps(free, idx[..|idx| - 1]); }
    if |idx| > 2 { PickedSteps(free, idx[..2][..1]); }
    assert |idx| > 2 ==> idx[..2][..1] == [idx[0]] && idx[..2] == [idx[0], idx[1]];
    assert |idx| == 2 ==> idx[..1] == [idx[0]];
  }

  lemma NotPicked(free: seq<bool>, idx: seq<nat>)
    requires Picked(free, idx) && |idx| < 3 && FirstFree(free, From(idx)) == None
    ensures Pick(free) == None
  {
    hide Picked, FirstFree;
    PickedUpTo3(free, idx);
  }

  lemma PickedThree(free: seq<bool>, idx: seq<nat>)
    requires Picked(free, idx) && |idx| == 3
    ensures Pick(free) == Some(Three(idx[0], idx[1], idx[2]))
    ensures Without(free, idx) == free[idx[0] := false][idx[1] := false][idx[2] := false]
  {
    hide Picked, FirstFree, Without;
    PickedUpTo3(free, idx);
    assert idx == [idx[0], idx[1], idx[2]];
    var a, b := Without(free, idx), free[idx[0] := false][idx[1] := false][idx[2] := false];
    assert forall i: nat :: i < |free| ==> a[i] == b[i];
  }

  /** Freeing what was picked, one by one, restores what was free. */
  lemma Returned(free: seq<bool>, idx: seq<nat>, j: nat)
    requires Picked(free, idx) && |idx| <= 3 && j < |idx|
    ensures idx[j] < |free| && free[idx[j]] && !Without(free, idx[j..])[idx[j]]
    ensures Without(free, idx[j..])[idx[j] := true] == Without(free, idx[j + 1..])
  {
    hide Picked, FirstFree, Without;
    PickedUpTo3(free, idx);
    assert idx[j] !in idx[j + 1..];
    assert idx[j..] == [idx[j]] + idx[j + 1..];
    var a, b := Without(free, idx[j..])[idx[j] := true], Without(free, idx[j + 1..]);
    assert forall i: nat :: i < |free| ==> a[i] == b[i];
  }

  // ---- completions ----

  /** How many completions the driver has still to look at. */
  function Behind(d: Disk): nat
    requires Shaped(d)
  {
    (d.doneIdx + WRAP - d.usedIdx) % WRAP
  }

  /** Entry `n` of the used ring is still to look at. */
  ghost predicate Open(d: Disk, n: nat)
    requires Shaped(d)
  {
    n < WRAP && (n + WRAP - d.usedIdx) % WRAP < Behind(d)
  }

  /** The completions still to look at are those of requests. */
  ghost predicate AllKnown(d: Disk)
    requires Shaped(d)
  {
    forall n: nat :: Open(d, n) ==> KnownAt(d, n)
  }

  ghost predicate KnownAt(d: Disk, n: nat)
    requires Shaped(d)
  {
    d.used[n % NUM] < NUM && d.info[d.used[n % NUM]].b.Some?
  }

  /** None of them carries an error. */
  ghost predicate AllZero(d: Disk)
    requires Shaped(d)
  {
    forall n: nat :: Open(d, n) && KnownAt(d, n) ==> ZeroAt(d, n)
  }

  ghost predicate ZeroAt(d: Disk, n: nat)
    requires Shaped(d) && KnownAt(d, n)
  {
    d.info[d.used[n % NUM]].status == 0
  }

  ghost function ConsumedAll(d: Disk, n: nat): (e: Disk)
    requires Shaped(d)
    ensures Shaped(e)
  {
    if n == 0 then d else Consumed(ConsumedAll(d, n - 1))
  }

  lemma ConsumedNone(d: Disk)
    requires Shaped(d)
    ensures ConsumedAll(d, 0) == d
  {
  }

  lemma ConsumedMore(d: Disk, n: nat)
    requires Shaped(d)
    ensures ConsumedAll(d, n + 1) == Consumed(ConsumedAll(d, n))
  {
  }

  lemma NotBehind(d: Disk)
    requires Shaped(d) && d.usedIdx == d.doneIdx
    ensures Behind(d) == 0 && AllZero(d)
  {
  }

  lemma Closer(u: nat, n: nat)
    requires u < WRAP && n < WRAP && u != n
    ensures (n + WRAP - (u + 1) % WRAP) % WRAP == (n + WRAP - u) % WRAP - 1
  {
    assert (u + 1) % WRAP == if u + 1 == WRAP then 0 else u + 1;
    assert (n + WRAP - u) % WRAP == if n >= u then n - u else n + WRAP - u;
  }

  /** The window over the used ring moves by one. */
  lemma OpenNext(d: Disk, n: nat)
    requires Shaped(d) && d.usedIdx != d.doneIdx
    ensures Open(d, d.usedIdx) && Behind(Consumed(d)) == Behind(d) - 1
    ensures Open(d, n) <==> n == d.usedIdx || Open(Consumed(d), n)
  {
    Closer(d.usedIdx, d.doneIdx);
    hide Completed;
    if n < WRAP && n != d.usedIdx { Closer(d.usedIdx, n); }
    var u := d.usedIdx;
    assert (u + WRAP - u) % WRAP == 0 && (u + WRAP - (u + 1) % WRAP) % WRAP == WRAP - 1;
  }

  lemma SameEntries(d: Disk, n: nat)
    requires Shaped(d)
    ensures KnownAt(Consumed(d), n) <==> KnownAt(d, n)
    ensures KnownAt(d, n) ==> (ZeroAt(Consumed(d), n) <==> ZeroAt(d, n))
  {
    hide Completed;
  }

  lemma FirstZero(d: Disk)
    requires Shaped(d) && AllKnown(d) && d.usedIdx != d.doneIdx
    ensures KnownAt(d, d.usedIdx) && (AllZero(d) ==> ZeroAt(d, d.usedIdx))
  {
    OpenNext(d, d.usedIdx);
    hide Open, KnownAt;
  }

  lemma ConsumedRest(d: Disk)
    requires Shaped(d) && AllKnown(d) && d.usedIdx != d.doneIdx
    ensures KnownAt(d, d.usedIdx) && Behind(Consumed(d)) == Behind(d) - 1 && AllKnown(Consumed(d))
    ensures ZeroAt(d, d.usedIdx) ==> (AllZero(Consumed(d)) <==> AllZero(d))
  {
    hide Open, KnownAt, ZeroAt, Consumed, Behind;
    var e := Consumed(d);
    OpenNext(d, d.usedIdx);
    forall n: nat
      ensures (Open(d, n) <==> n == d.usedIdx || Open(e, n)) && (KnownAt(e, n) <==> KnownAt(d, n))
      ensures KnownAt(d, n) ==> (ZeroAt(e, n) <==> ZeroAt(d, n))
    {
      OpenNext(d, n);
      SameEntries(d, n);
    }
  }

  // ---- the handler and the end of a request in the protocol ----

  lemma Window(c: nat, r: nat, n: nat)
    requires r < WRAP && n < WRAP
    ensures ((c + r) % WRAP + WRAP - c % WRAP) % WRAP == r
    ensures (c + (n + WRAP - c % WRAP) % WRAP) % NUM == n % NUM
  {
    var q, m := c / WRAP, c % WRAP;
    assert c == WRAP * q + m;
    if m + r < WRAP { ModIs(c + r, q, m + r); } else { ModIs(c + r, q + 1, m + r - WRAP); }
    var k := (n + WRAP - m) % WRAP;
    assert k == if n >= m then n - m else n + WRAP - m;
    assert c + k == NUM * (8192 * (if n >= m then q else q + 1)) + n;
    SameMod(8192 * (if n >= m then q else q + 1), n);
  }

  lemma ModIs(x: nat, q: nat, r: nat)
    requires x == WRAP * q + r && r < WRAP
    ensures x % WRAP == r
  {
  }

  lemma SameMod(a: nat, n: nat)
    ensures (NUM * a + n) % NUM == n % NUM
  {
  }

  /** In every state that the protocol's invariant allows, the handler meets nothing but good completions. */
  lemma HandlerReady(w: World)
    requires Inv(w)
    ensures AllKnown(w.d) && AllZero(w.d) && Behind(w.d) == |w.f.ready|
  {
    BehindIs(w);
    forall n: nat | Open(w.d, n) ensures KnownAt(w.d, n) && ZeroAt(w.d, n) { GoodEntry(w, n); }
  }

  lemma BehindIs(w: World)
    requires Inv(w)
    ensures Behind(w.d) == |w.f.ready| <= NUM
  {
    hide Descs, People, Sleepers, Ring;
    assert forall i :: 0 <= i < |w.f.ready| ==> w.f.ready[i] in w.f.ready;
    Pigeonhole(w.f.ready, NUM);
    Window(w.f.consumed, |w.f.ready|, 0);
  }

  lemma GoodEntry(w: World, n: nat)
    requires Inv(w) && Open(w.d, n) && Behind(w.d) == |w.f.ready|
    ensures KnownAt(w.d, n) && ZeroAt(w.d, n)
  {
    hide People, Sleepers, Formatted, Owners, FreeOnes;
    var k := (n + WRAP - w.d.usedIdx) % WRAP;
    Window(w.f.consumed, 0, n);
    assert w.d.used[(w.f.consumed + k) % NUM] == w.f.ready[k];
    assert w.f.ready[k] in w.f.ready;
    HeadFormatted(w.d, w.chains, w.own, w.f.ready[k]);
    FormattedInfo(w.d, w.f.ready[k], w.chains[w.f.ready[k]]);
  }

  lemma FormattedInfo(d: Disk, h: nat, c: Chain)
    requires Shaped(d) && Formatted(d, h, c)
    ensures h < NUM && d.info[h].b.Some?
  {
  }

  /** What the end of a request asks of the descriptors holds when its requester gets there. */
  lemma RetireReady(w: World, p: nat)
    requires Inv(w) && p in w.procs && w.procs[p].Waiting?
    ensures w.procs[p].head in w.chains
    ensures var t := ChainOf(w.chains, w.procs[p].head);
      && Within(t) && !w.d.free[t.a] && !w.d.free[t.b] && !w.d.free[t.c]
      && w.d.desc[t.a].flags % 2 == F_NEXT && w.d.desc[t.a].next == t.b
      && w.d.desc[t.b].flags % 2 == F_NEXT && w.d.desc[t.b].next == t.c && w.d.desc[t.c].flags % 2 != F_NEXT
  {
    FinishReady(w, p);
    FreeDescOk(w, p);
    HeadFormatted(w.d, w.chains, w.own, w.procs[p].head);
    hide Descs, Rings, Places, Marks, People, Sleepers;
  }
}
