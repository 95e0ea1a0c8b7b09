/** What the requesters of the virtio driver get: every request can be served, and each moves its own data. */
module VirtioService {
  import opened Counting
  import opened Options
  import opened Virtio

  // ---- every request can be served ----

  ghost function Wanters(procs: Procs): set<nat> {
    set p | p in procs && procs[p].Wanting?
  }

  /** How many steps are left when no one new comes: five for each request not yet submitted, and fewer the further it is. */
  ghost function Left(w: World): nat {
    5 * |Wanters(w.procs)| + 4 * |w.f.queue| + 3 * |w.f.busy| + 2 * |w.f.ready| + |w.f.released|
  }

  /** A step of someone who is there already, after which one step fewer is left. */
  ghost predicate Nearer(w: World, s: Step) {
    Shaped(w.d) && Enabled(w, s) && !s.Start? && Left(Next(w, s)) + 1 == Left(w)
  }

  lemma ReadyFacts(w: World)
    requires Inv(w) && w.f.ready != []
    ensures Shaped(w.d) && w.d.usedIdx != w.d.doneIdx && w.d.used[w.d.usedIdx % NUM] == w.f.ready[0] && w.f.ready[0] !in w.f.released
  {
    ReadyMoves(w);
    ConsumesHead(w);
    hide Descs, Rings, Marks, People, Sleepers;
    assert w.f.ready[0] in w.f.ready;
  }

  lemma InterruptNearer(w: World)
    requires Inv(w) && w.f.ready != []
    ensures Nearer(w, Interrupt)
  {
    hide Inv, Shaped, Wanters, Consumed, Completed, ForBuffer;
    ReadyFacts(w);
  }

  lemma BusyFacts(w: World, h: nat)
    requires Inv(w) && h in w.f.busy
    ensures Shaped(w.d) && h < NUM
  {
    hide Inv;
    CompleteReady(w, h);
    InvShaped(w);
  }

  lemma InvShaped(w: World)
    requires Inv(w)
    ensures Shaped(w.d)
  {
  }

  lemma CompleteNearer(w: World, h: nat)
    requires Inv(w) && h in w.f.busy
    ensures Nearer(w, Complete(h))
  {
    hide Inv, Shaped, Wanters, Done;
    BusyFacts(w, h);
  }

  lemma QueueFacts(w: World)
    requires Inv(w) && w.f.queue != []
    ensures Shaped(w.d) && w.d.taken != w.d.availIdx && w.d.avail[w.d.taken % NUM] == w.f.queue[0] && w.f.queue[0] !in w.f.busy
  {
    QueueMoves(w);
    TakesHead(w);
    hide Descs, Rings, Marks, People, Sleepers;
    TakePlaces(w.chains, w.f);
  }

  lemma TakeNearer(w: World)
    requires Inv(w) && w.f.queue != []
    ensures Nearer(w, Take)
  {
    hide Inv, Shaped, Wanters, Taken;
    QueueFacts(w);
  }

  lemma NotAsleep(w: World, p: nat)
    requires Inv(w) && p in w.procs && if w.procs[p].Waiting? then w.procs[p].b !in w.d.onDisk else Pick(w.d.free).Some?
    ensures p !in w.asleep
  {
    hide Descs, Rings, Places, Marks, People, Pick;
  }

  lemma FinishNearer(w: World, p: nat)
    requires Inv(w) && p in w.procs && w.procs[p].Waiting? && w.procs[p].head in w.f.released
    ensures Nearer(w, Finish(p))
  {
    hide Inv, Shaped, Finished, Within, ForFree;
    InvShaped(w);
    FinishOwn(w, p);
    FinishReady(w, p);
    NotAsleep(w, p);
    assert Wanters(w.procs - {p}) == Wanters(w.procs);
  }

  lemma AllFree(w: World)
    requires Inv(w) && w.chains == map[]
    ensures Pick(w.d.free).Some?
  {
    hide Rings, Places, Marks, People, Sleepers, Formatted;
    assert forall i :: i in w.own ==> w.own[i] in w.chains;
    assert w.d.free[0] && w.d.free[1] && w.d.free[2];
  }

  lemma SubmitNearer(w: World, p: nat)
    requires Inv(w) && p in w.procs && w.procs[p].Wanting? && w.chains == map[]
    ensures Nearer(w, Submit(p))
  {
    hide Inv, Shaped, Submitted, Pick;
    InvShaped(w);
    AllFree(w);
    NotAsleep(w, p);
    var v := Next(w, Submit(p));
    assert Wanters(v.procs) == Wanters(w.procs) - {p};
  }

  /** As long as someone has a request, there is such a step. */
  lemma GoesOn(w: World) returns (s: Step)
    requires Inv(w) && w.procs != map[]
    ensures Nearer(w, s)
  {
    hide Nearer, Descs, Rings, Marks, Sleepers;
    var p :| p in w.procs;
    if w.f.ready != [] {
      InterruptNearer(w);
      s := Interrupt;
    } else if h :| h in w.f.busy {
      CompleteNearer(w, h);
      s := Complete(h);
    } else if w.f.queue != [] {
      TakeNearer(w);
      s := Take;
    } else if h :| h in w.chains {
      FinishNearer(w, w.chains[h].p);
      s := Finish(w.chains[h].p);
    } else {
      assert w.chains == map[];
      SubmitNearer(w, p);
      s := Submit(p);
    }
  }

  lemma RunBefore(w: World, s: Step, ws: seq<World>, steps: seq<Step>)
    requires ws != [] && StepTo(w, s, ws[0]) && IsRun(ws, steps)
    ensures IsRun([w] + ws, [s] + steps)
  {
    hide StepTo;
  }

  /** From every state the requests that are there can all be served, in as many steps as are left. */
  lemma {:induction false} AllServed(w: World) returns (ws: seq<World>, steps: seq<Step>)
    requires Inv(w)
    ensures IsRun(ws, steps) && ws[0] == w && ws[|steps|].procs == map[] && |steps| <= Left(w)
    ensures forall i :: 0 <= i < |steps| ==> !steps[i].Start?
    decreases Left(w)
  {
    hide Inv, Next, Enabled, Left;
    if w.procs == map[] {
      ws, steps := [w], [];
    } else {
      var s := GoesOn(w);
      NextOk(w, s);
      ws, steps := AllServed(Next(w, s));
      RunBefore(w, s, ws, steps);
      ws, steps := [w] + ws, [s] + steps;
    }
  }

  /** So can that of anyone who comes with a buffer that no one else has given to the driver. */
  lemma NewcomerServed(w: World, p: nat, b: nat, write: bool, blockno: nat) returns (ws: seq<World>, steps: seq<Step>)
    requires Inv(w) && p !in w.procs && forall q :: q in w.procs ==> w.procs[q].b != b
    ensures IsRun(ws, steps) && |steps| > 0 && ws[0] == w && steps[0] == Start(p, b, write, blockno) && ws[|steps|].procs == map[]
  {
    var s := Start(p, b, write, blockno);
    NextOk(w, s);
    var v := Next(w, s);
    hide Inv, Next, Enabled, Left;
    ws, steps := AllServed(v);
    RunBefore(w, s, ws, steps);
    ws, steps := [w] + ws, [s] + steps;
  }

  // ---- each request moves its own data ----

  /** The chain of a waiting request stays as it is until the requester goes on. */
  lemma ChainStays(w: World, s: Step, p: nat)
    requires Inv(w) && Enabled(w, s) && p in w.procs && w.procs[p].Waiting? && s != Finish(p)
    ensures w.procs[p].head in w.chains && w.procs[p].head in Next(w, s).chains
    ensures Next(w, s).chains[w.procs[p].head] == w.chains[w.procs[p].head]
  {
    hide Inv, Shaped, Submitted, Finished, Done, Consumed, Completed, Taken, Pick, ForFree, ForBuffer, Within;
    InvShaped(w);
    FinishOwn(w, p);
    if s.Submit? { NewHead(w); }
    if s.Finish? { FinishOwn(w, s.p); }
  }

  lemma NewHead(w: World)
    requires Inv(w) && Pick(w.d.free).Some?
    ensures Pick(w.d.free).value.a !in w.chains
  {
    hide Rings, Places, Marks, People, Sleepers;
    ChainsApart(w.d, w.chains, w.own, Pick(w.d.free).value);
  }

  ghost predicate SameBuf(w: World, v: World, b: nat) {
    (b in w.d.bufs <==> b in v.d.bufs) && (b in w.d.bufs ==> v.d.bufs[b] == w.d.bufs[b])
  }

  lemma OwnBuffer(w: World, h: nat, p: nat)
    requires Inv(w) && h in w.chains && p in w.procs && w.procs[p].Waiting? && w.chains[h].b == w.procs[p].b
    ensures h == w.procs[p].head
  {
    hide Descs, Rings, Places, Marks, Sleepers;
    assert w.procs[w.chains[h].p].b == w.procs[p].b;
  }

  lemma StepKeepsBufs(w: World, s: Step)
    requires Shaped(w.d) && Enabled(w, s) && !s.Complete?
    ensures Next(w, s).d.bufs == w.d.bufs
  {
    hide Pick, ForFree, ForBuffer, FirstFree, Completed, Within;
  }

  /** A completion changes no buffer but that of its own chain, and that one only for a read. */
  lemma CompleteBufs(w: World, h: nat)
    requires Inv(w) && Shaped(w.d) && Enabled(w, Complete(h))
    ensures h in w.chains && var v, c := Next(w, Complete(h)), w.chains[h];
      (c.write ==> v.d.bufs == w.d.bufs) && forall b :: b != c.b ==> SameBuf(w, v, b)
  {
    hide Inv, Shaped, Done, Formatted;
    CompleteReady(w, h);
    ChainFormatted(w, h);
    CompleteMoves(w.d, h, w.chains[h]);
  }

  lemma ChainFormatted(w: World, h: nat)
    requires Inv(w) && h in w.chains
    ensures Shaped(w.d) && Formatted(w.d, h, w.chains[h])
  {
    hide Rings, Places, Marks, People, Sleepers, Formatted;
  }

  /** While a request waits, the driver and the device leave its buffer alone but for the completion of a read. */
  lemma BufStays(w: World, s: Step, p: nat)
    requires Inv(w) && Enabled(w, s) && p in w.procs && w.procs[p].Waiting?
    requires w.procs[p].head in w.chains && (w.chains[w.procs[p].head].write || s != Complete(w.procs[p].head))
    ensures SameBuf(w, Next(w, s), w.procs[p].b)
  {
    hide Inv, Shaped, Done, Enabled;
    InvShaped(w);
    if s.Complete? {
      CompleteBufs(w, s.head);
      if w.chains[s.head].b == w.procs[p].b { OwnBuffer(w, s.head, p); }
    } else {
      StepKeepsBufs(w, s);
    }
  }

  /** The request of `p` waits in both worlds, with the same chain. */
  ghost predicate Waits(w: World, v: World, p: nat) {
    && p in w.procs && w.procs[p].Waiting? && p in v.procs && v.procs[p] == w.procs[p]
    && w.procs[p].head in w.chains && w.procs[p].head in v.chains && v.chains[w.procs[p].head] == w.chains[w.procs[p].head]
  }

  lemma StepWaits(w: World, s: Step, v: World, p: nat)
    requires Inv(w) && StepTo(w, s, v) && p in w.procs && w.procs[p].Waiting? && s != Finish(p)
    ensures Inv(v) && Waits(w, v, p)
    ensures w.chains[w.procs[p].head].write || s != Complete(w.procs[p].head) ==> SameBuf(w, v, w.procs[p].b)
  {
    hide Inv, Next, Enabled, Shaped, SameBuf;
    StepToOk(w, s, v);
    StepKeepsWaiting(w, s, p);
    ChainStays(w, s, p);
    if w.chains[w.procs[p].head].write || s != Complete(w.procs[p].head) { BufStays(w, s, p); }
  }

  lemma StillWaits(w: World, p: nat)
    requires Inv(w) && p in w.procs && w.procs[p].Waiting?
    ensures Waits(w, w, p)
  {
    hide Inv;
    FinishOwn(w, p);
  }

  lemma {:induction false} WaitsOn(ws: seq<World>, steps: seq<Step>, i: nat, j: nat, p: nat)
    requires IsRun(ws, steps) && i <= j <= |steps| && Inv(ws[i]) && p in ws[i].procs && ws[i].procs[p].Waiting?
    requires forall m :: i <= m < j ==> steps[m] != Finish(p)
    ensures Inv(ws[j]) && Waits(ws[i], ws[j], p)
    decreases j
  {
    hide Inv, StepTo;
    StillWaits(ws[i], p);
    if i < j {
      WaitsOn(ws, steps, i, j - 1, p);
      StepWaits(ws[j - 1], steps[j - 1], ws[j], p);
    }
  }

  lemma {:induction false} BufOn(ws: seq<World>, steps: seq<Step>, i: nat, j: nat, p: nat)
    requires IsRun(ws, steps) && i <= j <= |steps| && Inv(ws[i]) && Waits(ws[i], ws[i], p)
    requires forall m :: i <= m < j ==> steps[m] != Finish(p)
    requires ws[i].chains[ws[i].procs[p].head].write || forall m :: i <= m < j ==> steps[m] != Complete(ws[i].procs[p].head)
    ensures SameBuf(ws[i], ws[j], ws[i].procs[p].b)
    decreases j
  {
    hide Inv, StepTo;
    if i < j {
      BufOn(ws, steps, i, j - 1, p);
      WaitsOn(ws, steps, i, j - 1, p);
      StepWaits(ws[j - 1], steps[j - 1], ws[j], p);
    }
  }

  /** A chain that has been completed is not with the device any more. */
  lemma NotAgain(w: World, s: Step, v: World, h: nat)
    requires Inv(w) && StepTo(w, s, v) && Landed(w.f, h)
    ensures s != Complete(h)
  {
    hide Descs, Rings, Marks, People, Sleepers, Next;
  }

  /** The submission makes the chain that was asked for. */
  lemma SubmitChain(w: World, v: World, p: nat)
    requires Inv(w) && StepTo(w, Submit(p), v)
    ensures Inv(v) && p in w.procs && w.procs[p].Wanting? && Waits(v, v, p) && v.procs[p].b == w.procs[p].b && SameBuf(w, v, w.procs[p].b)
    ensures var c := v.chains[v.procs[p].head]; c.b == w.procs[p].b && c.write == w.procs[p].write && c.blockno == w.procs[p].blockno
  {
    hide Inv, Pick, Shaped, Submitted;
    StepToOk(w, Submit(p), v);
    InvShaped(w);
    SubmittedBufs(w.d, Pick(w.d.free).value, w.procs[p].b, w.procs[p].write, w.procs[p].blockno);
  }

  lemma SubmittedBufs(d: Disk, t: Three, b: nat, write: bool, blockno: nat)
    requires Shaped(d) && t.a < NUM && t.b < NUM && t.c < NUM
    ensures Submitted(d, t, b, write, blockno).bufs == d.bufs
  {
  }

  lemma CompletionMoves(w: World, v: World, p: nat)
    requires Inv(w) && Waits(w, w, p) && StepTo(w, Complete(w.procs[p].head), v)
    ensures var c := w.chains[w.procs[p].head];
      && (c.write && c.b in w.d.bufs ==> v.d.sectors == w.d.sectors[c.blockno * 2 := w.d.bufs[c.b]])
      && (!c.write && c.blockno * 2 in w.d.sectors ==> c.b in v.d.bufs && v.d.bufs[c.b] == w.d.sectors[c.blockno * 2])
  {
    hide Inv, Shaped, Done, Formatted;
    CompleteReady(w, w.procs[p].head);
    ChainFormatted(w, w.procs[p].head);
    CompleteMoves(w.d, w.procs[p].head, w.chains[w.procs[p].head]);
  }

  /** Once its chain is complete, a request's buffer stays as it is until the requester goes on. */
  lemma KeptAfter(ws: seq<World>, steps: seq<Step>, c: nat, j: nat, p: nat)
    requires IsRun(ws, steps) && c <= j <= |steps| && Inv(ws[c]) && Waits(ws[c], ws[c], p)
    requires forall m :: c <= m < j ==> steps[m] != Finish(p) && Landed(ws[m].f, ws[c].procs[p].head)
    ensures SameBuf(ws[c], ws[j], ws[c].procs[p].b)
  {
    hide Inv, StepTo, Landed, SameBuf;
    forall m | c <= m < j ensures steps[m] != Complete(ws[c].procs[p].head) {
      WaitsOn(ws, steps, c, m, p);
      NotAgain(ws[m], steps[m], ws[m + 1], ws[c].procs[p].head);
    }
    BufOn(ws, steps, c, j, p);
  }

  /** What `p` asks for in `w0`, completed between `w2` and `w3`, is done for it in `w4`. */
  ghost predicate Served(w0: World, w2: World, w3: World, w4: World, p: nat) {
    && p in w0.procs && w0.procs[p].Wanting? && var q := w0.procs[p];
    && (q.write && q.b in w0.d.bufs ==> w3.d.sectors == w2.d.sectors[q.blockno * 2 := w0.d.bufs[q.b]])
    && (!q.write && q.blockno * 2 in w2.d.sectors ==> q.b in w4.d.bufs && w4.d.bufs[q.b] == w2.d.sectors[q.blockno * 2])
  }

  lemma IsDone(w0: World, w1: World, w2: World, w3: World, w4: World, p: nat)
    requires Inv(w0) && StepTo(w0, Submit(p), w1) && Waits(w1, w2, p) && Inv(w2) && StepTo(w2, Complete(w1.procs[p].head), w3)
    requires w0.procs[p].write ==> SameBuf(w1, w2, w1.procs[p].b)
    requires !w0.procs[p].write ==> SameBuf(w3, w4, w1.procs[p].b)
    ensures Served(w0, w2, w3, w4, p)
  {
    hide Inv, StepTo;
    SubmitChain(w0, w1, p);
    CompletionMoves(w2, w3, p);
  }

  /**
   Between the submission of a request and the moment its requester goes on, at the completion of its
   own chain, a write puts what was in the buffer at the submission in the sector asked for; and after a
   read the requester finds in the buffer what was in that sector then.
   */
  lemma Delivered(ws: seq<World>, steps: seq<Step>, i: nat, j: nat, p: nat) returns (c: nat)
    requires IsRun(ws, steps) && Inv(ws[0]) && i < j < |steps| && steps[i] == Submit(p) && steps[j] == Finish(p)
    requires forall m :: i < m < j ==> steps[m] != Finish(p)
    ensures i < c < j && Served(ws[i], ws[c], ws[c + 1], ws[j], p)
  {
    hide Inv, StepTo, Landed, SameBuf, Served;
    var k;
    c, k := OwnCompletion(ws, steps, i, j, p);
    RunInv(ws, steps, i);
    SubmitChain(ws[i], ws[i + 1], p);
    WaitsOn(ws, steps, i + 1, c, p);
    WaitsOn(ws, steps, i + 1, c + 1, p);
    if ws[i].procs[p].write { BufOn(ws, steps, i + 1, c, p); } else { KeptAfter(ws, steps, c + 1, j, p); }
    IsDone(ws[i], ws[i + 1], ws[c], ws[c + 1], ws[j], p);
  }
}
