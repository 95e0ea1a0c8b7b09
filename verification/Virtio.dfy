/**
 The virtio block driver as a protocol: requesters, the device and the interrupt handler share eight
 descriptors, an avail ring and a used ring with 16-bit indices. Each step is what one party does
 while it holds the driver's lock, or one action of the device, which takes no lock.
 */
module Virtio {
  import opened Counting
  import opened Options

  const NUM := 8
  const WRAP := 65536
  const F_NEXT := 1
  const F_WRITE := 2

  // ---- the structures in memory ----

  /** What a descriptor's address points at. */
  datatype Addr = Null | Request(i: nat) | Buffer(b: nat) | Status(i: nat)

  datatype Desc = Desc(addr: Addr, len: nat, flags: nat, next: nat)

  const CLEAR := Desc(Null, 0, 0, 0)

  /** A request as the device reads it. */
  datatype Op = Op(write: bool, sector: nat)

  datatype Info = Info(b: Option<nat>, status: nat)

  /** `taken` is the device's own count of avail entries it has read; `bufs` and `sectors` are the data. */
  datatype Disk = Disk(
    free: seq<bool>, desc: seq<Desc>, ops: seq<Op>, info: seq<Info>,
    avail: seq<nat>, availIdx: nat, used: seq<nat>, doneIdx: nat, usedIdx: nat, taken: nat,
    onDisk: set<nat>, bufs: map<nat, nat>, sectors: map<nat, nat>)

  predicate Shaped(d: Disk) {
    && |d.free| == |d.desc| == |d.ops| == |d.info| == |d.avail| == |d.used| == NUM
    && d.availIdx < WRAP && d.doneIdx < WRAP && d.usedIdx < WRAP && d.taken < WRAP
  }

  // ---- what the driver does ----

  /** The lowest free descriptor from `i` on. */
  function FirstFree(free: seq<bool>, i: nat): (r: Option<nat>)
    ensures r.Some? ==> i <= r.value < |free| && free[r.value] && forall k :: i <= k < r.value ==> !free[k]
    ensures r.None? ==> forall k :: i <= k < |free| ==> !free[k]
    decreases |free| - i
  {
    if i >= |free| then None else if free[i] then Some(i) else FirstFree(free, i + 1)
  }

  datatype Three = Three(a: nat, b: nat, c: nat)

  predicate Has(t: Three, i: nat) {
    i == t.a || i == t.b || i == t.c
  }

  /** The three descriptors that `alloc3_desc` picks. */
  function Pick(free: seq<bool>): (r: Option<Three>)
    ensures r.Some? ==>
      && r.value.a < r.value.b < r.value.c < |free| && free[r.value.a] && free[r.value.b] && free[r.value.c]
  {
    var a := FirstFree(free, 0);
    if a.None? then None else
    var b := FirstFree(free, a.value + 1);
    if b.None? then None else
    var c := FirstFree(free, b.value + 1);
    if c.None? then None else Some(Three(a.value, b.value, c.value))
  }

  /** The chain `t` formatted for the device. */
  function Format(d: Disk, t: Three, b: nat, write: bool, blockno: nat): (e: Disk)
    requires Shaped(d) && t.a < NUM && t.b < NUM && t.c < NUM
    ensures Shaped(e)
  {
    d.(free := d.free[t.a := false][t.b := false][t.c := false],
       ops := d.ops[t.a := Op(write, blockno * 2)],
       desc := d.desc[t.a := Desc(Request(t.a), 16, F_NEXT, t.b)]
                     [t.b := Desc(Buffer(b), 1024, if write then F_NEXT else F_WRITE + F_NEXT, t.c)]
                     [t.c := Desc(Status(t.a), 1, F_WRITE, 0)],
       info := d.info[t.a := Info(Some(b), 255)])
  }

  /** The buffer marked, and the chain put in the avail ring. */
  function Announce(d: Disk, head: nat, b: nat): (e: Disk)
    requires Shaped(d)
    ensures Shaped(e)
  {
    d.(onDisk := d.onDisk + {b}, avail := d.avail[d.availIdx % NUM := head], availIdx := (d.availIdx + 1) % WRAP)
  }

  /** The lower half of `virtio_disk_rw` up to the wait. */
  function Submitted(d: Disk, t: Three, b: nat, write: bool, blockno: nat): (e: Disk)
    requires Shaped(d) && t.a < NUM && t.b < NUM && t.c < NUM
    ensures Shaped(e)
  {
    Announce(Format(d, t, b, write, blockno), t.a, b)
  }

  function FreeDesc(d: Disk, i: nat): (e: Disk)
    requires Shaped(d) && i < NUM
    ensures Shaped(e)
  {
    d.(free := d.free[i := true], desc := d.desc[i := CLEAR])
  }

  /** The end of `virtio_disk_rw`: the chain goes back to the free descriptors. */
  function Finished(d: Disk, t: Three): (e: Disk)
    requires Shaped(d) && t.a < NUM && t.b < NUM && t.c < NUM
    ensures Shaped(e)
  {
    var e := d.(info := d.info[t.a := d.info[t.a].(b := None)]);
    FreeDesc(FreeDesc(FreeDesc(e, t.a), t.b), t.c)
  }

  /** The buffer of the next completion in the used ring. */
  function Completed(d: Disk): Option<nat>
    requires Shaped(d)
  {
    var id := d.used[d.usedIdx % NUM];
    if id < NUM then d.info[id].b else None
  }

  /** One turn of the loop of `virtio_disk_intr`. */
  function Consumed(d: Disk): (e: Disk)
    requires Shaped(d)
    ensures Shaped(e)
  {
    d.(usedIdx := (d.usedIdx + 1) % WRAP,
       onDisk := if Completed(d).Some? then d.onDisk - {Completed(d).value} else d.onDisk)
  }

  // ---- what the device does ----

  function Taken(d: Disk): Disk {
    d.(taken := (d.taken + 1) % WRAP)
  }

  /** What the device makes of a descriptor's flags: bit 0 says that another follows, bit 1 that it may write there. */
  predicate Continues(d: Desc) {
    d.flags % 2 == 1
  }

  predicate Writable(d: Desc) {
    d.flags / 2 % 2 == 1
  }

  function Following(d: Disk, x: Desc): Desc
    requires Shaped(d)
  {
    if Continues(x) && x.next < NUM then d.desc[x.next] else CLEAR
  }

  /**
   The device moves the data that the chain at `head` says, then writes the status and the used entry. It
   reads a request of 16 bytes, moves a block of 1024 bytes and writes a status of one byte, and it writes
   only where the flags allow it and reads only elsewhere.
   */
  function Done(d: Disk, head: nat): Disk
    requires Shaped(d) && head < NUM
  {
    var first, op := d.desc[head], d.ops[head];
    var data := Following(d, first);
    var last := Following(d, data);
    var asked := first.addr == Request(head) && first.len == 16 && !Writable(first) && data.addr.Buffer? && data.len == 1024;
    var moved :=
      if !asked || Writable(data) == op.write then d
      else if op.write then (if data.addr.b in d.bufs then d.(sectors := d.sectors[op.sector := d.bufs[data.addr.b]]) else d)
      else (if op.sector in d.sectors then d.(bufs := d.bufs[data.addr.b := d.sectors[op.sector]]) else d);
    var told := last.addr.Status? && last.addr.i < NUM && last.len == 1 && Writable(last) && !Continues(last);
    moved.(info := if told then d.info[last.addr.i := d.info[last.addr.i].(status := 0)] else d.info,
           used := d.used[d.doneIdx % NUM := head],
           doneIdx := (d.doneIdx + 1) % WRAP)
  }

  // ---- the protocol ----

  /** A request in flight: whose it is, and the rest of its chain. */
  datatype Chain = Chain(p: nat, b: nat, write: bool, blockno: nat, second: nat, third: nat)

  /** A requester waits for descriptors, then for the device. */
  datatype Proc = Wanting(b: nat, write: bool, blockno: nat) | Waiting(b: nat, head: nat)

  /**
   Where the requests in flight are, by their head descriptor: in the avail ring, with the device, in
   the used ring, or released. The last four count, without wrapping, the entries published, taken,
   completed and consumed.
   */
  datatype Flow = Flow(
    queue: seq<nat>, busy: set<nat>, ready: seq<nat>, released: set<nat>,
    published: nat, took: nat, completed: nat, consumed: nat)

  type Chains = map<nat, Chain>

  type Procs = map<nat, Proc>

  /** `own` maps each descriptor that is not free to the head of its chain. */
  datatype World = World(d: Disk, procs: Procs, asleep: set<nat>, chains: Chains, own: map<nat, nat>, f: Flow)

  datatype Step =
    | Start(p: nat, b: nat, write: bool, blockno: nat)
    | SleepFree(p: nat)
    | Submit(p: nat)
    | SleepDone(p: nat)
    | Finish(p: nat)
    | Take
    | Complete(head: nat)
    | Interrupt

  /** Those who sleep until a descriptor is free. */
  function ForFree(w: World): set<nat> {
    set p | p in w.asleep && p in w.procs && w.procs[p].Wanting?
  }

  /** Those who sleep until buffer `b` is done. */
  function ForBuffer(w: World, b: nat): set<nat> {
    set p | p in w.asleep && p in w.procs && w.procs[p].Waiting? && w.procs[p].b == b
  }

  predicate Enabled(w: World, s: Step)
    requires Shaped(w.d)
  {
    match s
    // the caller holds the lock of the buffer, so no other request uses it
    case Start(p, b, _, _) => p !in w.procs && forall q :: q in w.procs ==> w.procs[q].b != b
    case SleepFree(p) => p in w.procs && w.procs[p].Wanting? && p !in w.asleep && Pick(w.d.free).None?
    case Submit(p) => p in w.procs && w.procs[p].Wanting? && p !in w.asleep && Pick(w.d.free).Some?
    case SleepDone(p) => p in w.procs && w.procs[p].Waiting? && p !in w.asleep && w.procs[p].b in w.d.onDisk
    case Finish(p) => p in w.procs && w.procs[p].Waiting? && p !in w.asleep && w.procs[p].b !in w.d.onDisk
    case Take => w.d.taken != w.d.availIdx
    case Complete(head) => head in w.f.busy
    case Interrupt => w.d.usedIdx != w.d.doneIdx
  }

  function ChainOf(chains: Chains, head: nat): Three
    requires head in chains
  {
    Three(head, chains[head].second, chains[head].third)
  }

  // ---- the invariant ----

  ghost predicate Within(t: Three) {
    t.a < NUM && t.b < NUM && t.c < NUM && t.a != t.b && t.b != t.c && t.a != t.c
  }

  /** A chain as `virtio_disk_rw` formats it. */
  ghost predicate Formatted(d: Disk, head: nat, c: Chain)
    requires Shaped(d)
  {
    && Within(Three(head, c.second, c.third))
    && d.ops[head] == Op(c.write, c.blockno * 2)
    && d.desc[head] == Desc(Request(head), 16, F_NEXT, c.second)
    && d.desc[c.second] == Desc(Buffer(c.b), 1024, if c.write then F_NEXT else F_WRITE + F_NEXT, c.third)
    && d.desc[c.third] == Desc(Status(head), 1, F_WRITE, 0)
    && d.info[head].b == Some(c.b)
  }

  function OwnedToo(own: map<nat, nat>, t: Three): map<nat, nat> {
    own[t.a := t.a][t.b := t.a][t.c := t.a]
  }

  /** `own` tells of each descriptor in a chain which chain that is. */
  ghost predicate Owners(chains: Chains, own: map<nat, nat>) {
    && (forall h, i :: h in chains && Has(ChainOf(chains, h), i) ==> i in own && own[i] == h)
    && (forall i :: i in own ==> own[i] in chains && Has(ChainOf(chains, own[i]), i))
  }

  ghost predicate FreeOnes(d: Disk, own: map<nat, nat>)
    requires Shaped(d)
  {
    forall i {:trigger d.free[i]} :: 0 <= i < NUM ==> (d.free[i] <==> i !in own) && (d.free[i] ==> d.desc[i] == CLEAR)
  }

  /** Every descriptor is free and clear, or in exactly one chain. */
  ghost predicate Descs(d: Disk, chains: Chains, own: map<nat, nat>)
    requires Shaped(d)
  {
    (forall h :: h in chains ==> Formatted(d, h, chains[h])) && Owners(chains, own) && FreeOnes(d, own)
  }

  /** A ring holds the entries `q` from number `start` on. */
  ghost predicate Ring(ring: seq<nat>, start: nat, q: seq<nat>)
    requires |ring| == NUM
  {
    forall k :: 0 <= k < |q| ==> ring[(start + k) % NUM] == q[k]
  }

  /** The rings hold the queues, and the 16-bit indices are the counts wrapped round. */
  ghost predicate Rings(d: Disk, f: Flow)
    requires Shaped(d)
  {
    && d.availIdx == f.published % WRAP && d.taken == f.took % WRAP
    && d.doneIdx == f.completed % WRAP && d.usedIdx == f.consumed % WRAP
    && f.took + |f.queue| == f.published && f.consumed + |f.ready| == f.completed
    && f.completed + |f.busy| == f.took
    && Ring(d.avail, f.took, f.queue) && Ring(d.used, f.consumed, f.ready)
  }

  /** Each request in flight is in one place. */
  ghost predicate Places(chains: Chains, f: Flow) {
    && Distinct(f.queue) && Distinct(f.ready)
    && (forall h :: h in f.queue ==> h in chains && h !in f.busy && h !in f.ready && h !in f.released)
    && (forall h :: h in f.busy ==> h in chains && h !in f.ready && h !in f.released)
    && (forall h :: h in f.ready ==> h in chains && h !in f.released)
    && (forall h :: h in f.released ==> h in chains)
    && (forall h :: h in chains ==> h in f.queue || h in f.busy || h in f.ready || h in f.released)
  }

  /** A buffer is marked until the completion of its request is consumed; completions carry status zero. */
  ghost predicate Marks(d: Disk, chains: Chains, f: Flow)
    requires Shaped(d)
  {
    && (forall h :: h in f.ready ==> h < NUM && d.info[h].status == 0)
    && (forall h :: h in chains ==> (chains[h].b in d.onDisk <==> h !in f.released))
  }

  /** Each request in flight has its own requester and buffer. */
  ghost predicate People(chains: Chains, procs: Procs) {
    && (forall p, q :: p in procs && q in procs && procs[p].b == procs[q].b ==> p == q)
    && (forall h :: h in chains ==> chains[h].p in procs && procs[chains[h].p] == Waiting(chains[h].b, h))
    && (forall p :: p in procs && procs[p].Waiting? ==> procs[p].head in chains && chains[procs[p].head].p == p)
  }

  /** No one sleeps without cause: for descriptors when three are free, or for a buffer that is done. */
  ghost predicate Sleepers(free: seq<bool>, onDisk: set<nat>, procs: Procs, asleep: set<nat>) {
    && (forall p :: p in asleep ==> p in procs)
    && (forall p :: p in asleep && procs[p].Waiting? ==> procs[p].b in onDisk)
    && (forall p :: p in asleep && procs[p].Wanting? ==> Pick(free).None?)
  }

  ghost predicate Inv(w: World) {
    && Shaped(w.d) && Descs(w.d, w.chains, w.own) && Rings(w.d, w.f) && Places(w.chains, w.f) && Marks(w.d, w.chains, w.f)
    && People(w.chains, w.procs) && Sleepers(w.d.free, w.d.onDisk, w.procs, w.asleep)
  }

  // ---- steps ----

  ghost function AfterSubmit(w: World, p: nat): World
    requires Shaped(w.d) && p in w.procs && w.procs[p].Wanting? && Pick(w.d.free).Some?
  {
    var q, t := w.procs[p], Pick(w.d.free).value;
    w.(d := Submitted(w.d, t, q.b, q.write, q.blockno),
       procs := w.procs[p := Waiting(q.b, t.a)],
       chains := w.chains[t.a := Chain(p, q.b, q.write, q.blockno, t.b, t.c)],
       own := OwnedToo(w.own, t),
       f := w.f.(queue := w.f.queue + [t.a], published := w.f.published + 1))
  }

  ghost function AfterFinish(w: World, p: nat): World
    requires Shaped(w.d) && p in w.procs && w.procs[p].Waiting? && w.procs[p].head in w.chains
    requires Within(ChainOf(w.chains, w.procs[p].head))
  {
    var h := w.procs[p].head;
    w.(d := Finished(w.d, ChainOf(w.chains, h)), procs := w.procs - {p}, chains := w.chains - {h},
       own := w.own - {h, w.chains[h].second, w.chains[h].third},
       f := w.f.(released := w.f.released - {h}), asleep := w.asleep - ForFree(w))
  }

  ghost function AfterTake(w: World): World
    requires Shaped(w.d)
  {
    var h := w.d.avail[w.d.taken % NUM];
    w.(d := Taken(w.d),
       f := w.f.(queue := if w.f.queue == [] then [] else w.f.queue[1..], busy := w.f.busy + {h}, took := w.f.took + 1))
  }

  ghost function AfterComplete(w: World, h: nat): World
    requires Shaped(w.d) && h < NUM
  {
    w.(d := Done(w.d, h), f := w.f.(busy := w.f.busy - {h}, ready := w.f.ready + [h], completed := w.f.completed + 1))
  }

  ghost function AfterInterrupt(w: World): World
    requires Shaped(w.d)
  {
    var h := w.d.used[w.d.usedIdx % NUM];
    w.(d := Consumed(w.d), asleep := w.asleep - (if Completed(w.d).Some? then ForBuffer(w, Completed(w.d).value) else {}),
       f := w.f.(ready := if w.f.ready == [] then [] else w.f.ready[1..], released := w.f.released + {h}, consumed := w.f.consumed + 1))
  }

  lemma HeadFormatted(d: Disk, chains: Chains, own: map<nat, nat>, h: nat)
    requires Shaped(d) && Descs(d, chains, own) && h in chains
    ensures Formatted(d, h, chains[h]) && Within(ChainOf(chains, h)) && h < NUM
  {
  }

  lemma FinishReady(w: World, p: nat)
    requires Inv(w) && p in w.procs && w.procs[p].Waiting?
    ensures w.procs[p].head in w.chains && Within(ChainOf(w.chains, w.procs[p].head))
  {
    hide Descs, Rings, Places, Marks, Sleepers;
    HeadFormatted(w.d, w.chains, w.own, w.procs[p].head);
  }

  lemma CompleteReady(w: World, h: nat)
    requires Inv(w) && h in w.f.busy
    ensures h in w.chains && h < NUM
  {
    hide Descs, Rings, Marks, People, Sleepers;
    HeadFormatted(w.d, w.chains, w.own, h);
  }

  ghost function Next(w: World, s: Step): World
    requires Shaped(w.d) && Enabled(w, s)
  {
    match s
    case Start(p, b, write, blockno) => w.(procs := w.procs[p := Wanting(b, write, blockno)])
    // the descriptors that were allocated in vain are freed again, which wakes the others
    case SleepFree(p) => w.(asleep := (if FirstFree(w.d.free, 0).Some? then w.asleep - ForFree(w) else w.asleep) + {p})
    case Submit(p) => AfterSubmit(w, p)
    case SleepDone(p) => w.(asleep := w.asleep + {p})
    case Finish(p) => if w.procs[p].head in w.chains && Within(ChainOf(w.chains, w.procs[p].head)) then AfterFinish(w, p) else w
    case Take => AfterTake(w)
    case Complete(h) => if h < NUM then AfterComplete(w, h) else w
    case Interrupt => AfterInterrupt(w)
  }

  // ---- the rings ----

  lemma WrapRing(n: nat)
    ensures n % WRAP % NUM == n % NUM && (n + 1) % WRAP == (n % WRAP + 1) % WRAP
  {
  }

  lemma ApartRing(n: nat, k: nat)
    requires 0 < k < NUM
    ensures (n + k) % NUM != n % NUM
  {
    assert n == NUM * (n / NUM) + n % NUM && n + k == NUM * ((n + k) / NUM) + (n + k) % NUM;
  }

  lemma ApartIndex(n: nat, k: nat)
    requires 0 < k < WRAP
    ensures (n + k) % WRAP != n % WRAP
  {
    assert n == WRAP * (n / WRAP) + n % WRAP && n + k == WRAP * ((n + k) / WRAP) + (n + k) % WRAP;
  }

  /** Heads are descriptor numbers, so with another one at large a ring is never full. */
  lemma FewInRing(q: seq<nat>, h: nat)
    requires Distinct(q) && h < NUM && h !in q && forall i :: 0 <= i < |q| ==> q[i] < NUM
    ensures |q| < NUM
  {
    hide Below;
    Pigeonhole(q + [h], NUM);
  }

  lemma QueueHeads(d: Disk, chains: Chains, own: map<nat, nat>, q: seq<nat>)
    requires Shaped(d) && Descs(d, chains, own) && forall h :: h in q ==> h in chains
    ensures forall i :: 0 <= i < |q| ==> q[i] < NUM
  {
    hide Descs;
    forall i | 0 <= i < |q| ensures q[i] < NUM { HeadFormatted(d, chains, own, q[i]); }
  }

  // ---- every step keeps the invariant ----

  lemma StartOk(w: World, p: nat, b: nat, write: bool, blockno: nat)
    requires Inv(w) && Enabled(w, Start(p, b, write, blockno))
    ensures Inv(Next(w, Start(p, b, write, blockno)))
  {
    hide Descs, Rings, Places, Marks;
  }

  lemma SleepFreeOk(w: World, p: nat)
    requires Inv(w) && Enabled(w, SleepFree(p))
    ensures Inv(Next(w, SleepFree(p)))
  {
    hide Descs, Rings, Places, Marks, People, Pick;
  }

  lemma SleepDoneOk(w: World, p: nat)
    requires Inv(w) && Enabled(w, SleepDone(p))
    ensures Inv(Next(w, SleepDone(p)))
  {
    hide Descs, Rings, Places, Marks, People, Pick;
  }

  // the chain is published

  /** The two states agree on everything that the descriptors outside `t` and their chains hold. */
  ghost predicate SameOutside(d: Disk, e: Disk, t: Three)
    requires Shaped(d) && Shaped(e)
  {
    && (forall i :: 0 <= i < NUM && !Has(t, i) ==> e.desc[i] == d.desc[i] && e.free[i] == d.free[i])
    && (forall i :: 0 <= i < NUM && i != t.a ==> e.ops[i] == d.ops[i] && e.info[i] == d.info[i])
  }

  lemma ChainKept(d: Disk, e: Disk, t: Three, h: nat, c: Chain)
    requires Shaped(d) && Shaped(e) && SameOutside(d, e, t) && Formatted(d, h, c)
    requires !Has(t, h) && !Has(t, c.second) && !Has(t, c.third)
    ensures Formatted(e, h, c)
  {
  }

  lemma SubmitDescs(d: Disk, e: Disk, chains: Chains, own: map<nat, nat>, t: Three, c: Chain)
    requires Shaped(d) && Shaped(e) && Within(t) && d.free[t.a] && d.free[t.b] && d.free[t.c]
    requires !e.free[t.a] && !e.free[t.b] && !e.free[t.c] && c.second == t.b && c.third == t.c && Formatted(e, t.a, c)
    requires SameOutside(d, e, t) && Descs(d, chains, own)
    ensures t.a !in chains && Descs(e, chains[t.a := c], OwnedToo(own, t))
  {
    hide Formatted, Owners, FreeOnes, SameOutside;
    ChainsApart(d, chains, own, t);
    forall h | h in chains ensures Formatted(e, h, chains[h]) { ChainKept(d, e, t, h, chains[h]); }
    FreeLess(d, e, own, t);
    OwnersMore(chains, own, t, c);
  }

  lemma FreeLess(d: Disk, e: Disk, own: map<nat, nat>, t: Three)
    requires Shaped(d) && Shaped(e) && FreeOnes(d, own) && Within(t) && d.free[t.a] && d.free[t.b] && d.free[t.c]
    requires SameOutside(d, e, t) && !e.free[t.a] && !e.free[t.b] && !e.free[t.c]
    ensures t.a !in own && t.b !in own && t.c !in own && FreeOnes(e, OwnedToo(own, t))
  {
  }

  lemma OwnersMore(chains: Chains, own: map<nat, nat>, t: Three, c: Chain)
    requires Owners(chains, own) && t.a !in own && t.b !in own && t.c !in own && t.a !in chains && c.second == t.b && c.third == t.c
    ensures Owners(chains[t.a := c], OwnedToo(own, t))
  {
    var cs, own' := chains[t.a := c], OwnedToo(own, t);
    forall h, i: nat | h in cs && Has(ChainOf(cs, h), i) ensures i in own' && own'[i] == h {
      if h in chains { assert Has(ChainOf(chains, h), i); }
    }
    forall i | i in own' ensures own'[i] in cs && Has(ChainOf(cs, own'[i]), i) {
      if !Has(t, i) { assert Has(ChainOf(chains, own[i]), i); }
    }
  }

  /** Free descriptors are in no chain. */
  lemma ChainsApart(d: Disk, chains: Chains, own: map<nat, nat>, t: Three)
    requires Shaped(d) && Descs(d, chains, own) && Within(t) && d.free[t.a] && d.free[t.b] && d.free[t.c]
    ensures t.a !in chains
    ensures forall h :: h in chains ==> !Has(t, h) && !Has(t, chains[h].second) && !Has(t, chains[h].third)
  {
    hide Formatted, Owners;
    forall h | h in chains ensures !Has(t, h) && !Has(t, chains[h].second) && !Has(t, chains[h].third) {
      var c := ChainOf(chains, h);
      OwnedBy(chains, own, h, c.a, h);
      OwnedBy(chains, own, h, c.b, h);
      OwnedBy(chains, own, h, c.c, h);
    }
  }

  lemma RingPush(ring: seq<nat>, start: nat, q: seq<nat>, h: nat)
    requires |ring| == NUM && Ring(ring, start, q) && |q| < NUM
    ensures Ring(ring[(start + |q|) % NUM := h], start, q + [h])
  {
    forall k | 0 <= k < |q| + 1 ensures ring[(start + |q|) % NUM := h][(start + k) % NUM] == (q + [h])[k] {
      if k < |q| { ApartRing(start + k, |q| - k); }
    }
  }

  lemma RingPop(ring: seq<nat>, start: nat, q: seq<nat>)
    requires |ring| == NUM && Ring(ring, start, q) && q != []
    ensures ring[start % NUM] == q[0] && Ring(ring, start + 1, q[1..])
  {
    assert ring[(start + 0) % NUM] == q[0];
    forall k | 0 <= k < |q| - 1 ensures ring[(start + 1 + k) % NUM] == q[1..][k] {
      assert ring[(start + (1 + k)) % NUM] == q[1 + k];
    }
  }

  lemma SubmitRings(w: World, t: Three, b: nat, write: bool, n: nat)
    requires Inv(w) && Within(t) && t.a !in w.chains
    ensures Rings(Submitted(w.d, t, b, write, n), w.f.(queue := w.f.queue + [t.a], published := w.f.published + 1))
  {
    hide Descs, Distinct, Marks, People, Sleepers;
    var f := w.f;
    QueueHeads(w.d, w.chains, w.own, f.queue);
    FewInRing(f.queue, t.a);
    WrapRing(f.published);
    RingPush(w.d.avail, f.took, f.queue, t.a);
    hide Ring, Places;
  }

  lemma SubmitPlaces(chains: Chains, f: Flow, h: nat, c: Chain)
    requires Places(chains, f) && h !in chains
    ensures Places(chains[h := c], f.(queue := f.queue + [h], published := f.published + 1))
  {
  }

  lemma SubmitMarks(w: World, p: nat)
    requires Inv(w) && Enabled(w, Submit(p)) && Pick(w.d.free).value.a !in w.chains
    ensures Shaped(AfterSubmit(w, p).d) && Marks(AfterSubmit(w, p).d, AfterSubmit(w, p).chains, AfterSubmit(w, p).f)
  {
    hide Descs, Rings, Pick, Sleepers;
  }

  lemma SubmitPeople(w: World, p: nat)
    requires Inv(w) && Enabled(w, Submit(p)) && Pick(w.d.free).value.a !in w.chains
    ensures People(AfterSubmit(w, p).chains, AfterSubmit(w, p).procs)
  {
    hide Descs, Rings, Places, Marks, Sleepers, Pick;
  }

  /** Those who sleep for descriptors do so because there are not three, so no one does when a chain can be had. */
  lemma SubmitSleepers(w: World, p: nat)
    requires Inv(w) && Enabled(w, Submit(p))
    ensures var v := AfterSubmit(w, p); Sleepers(v.d.free, v.d.onDisk, v.procs, v.asleep)
  {
    hide Descs, Rings, Places, Marks, People, Pick;
  }

  lemma SubmitOk(w: World, p: nat)
    requires Inv(w) && Enabled(w, Submit(p))
    ensures Inv(Next(w, Submit(p)))
  {
    hide Descs, Rings, Places, Marks, People, Sleepers, Pick;
    var q, t := w.procs[p], Pick(w.d.free).value;
    var e, c := Submitted(w.d, t, q.b, q.write, q.blockno), Chain(p, q.b, q.write, q.blockno, t.b, t.c);
    SubmitDescs(w.d, e, w.chains, w.own, t, c);
    SubmitRings(w, t, q.b, q.write, q.blockno);
    SubmitPlaces(w.chains, w.f, t.a, Chain(p, q.b, q.write, q.blockno, t.b, t.c));
    SubmitMarks(w, p);
    SubmitPeople(w, p);
    SubmitSleepers(w, p);
  }

  // the chain is freed

  lemma OwnersLess(chains: Chains, own: map<nat, nat>, h: nat)
    requires Owners(chains, own) && h in chains
    ensures Owners(chains - {h}, own - {h, chains[h].second, chains[h].third})
  {
    var cs, own' := chains - {h}, own - {h, chains[h].second, chains[h].third};
    var t := ChainOf(chains, h);
    assert Has(t, h) && Has(t, chains[h].second) && Has(t, chains[h].third);
    forall g, i: nat | g in cs && Has(ChainOf(cs, g), i) ensures i in own' && own'[i] == g {
      OwnedBy(chains, own, g, i, h);
    }
    forall i | i in own' ensures own'[i] in cs && Has(ChainOf(cs, own'[i]), i) {
      assert Has(ChainOf(chains, own[i]), i);
    }
  }

  lemma FreeMore(d: Disk, e: Disk, own: map<nat, nat>, t: Three)
    requires Shaped(d) && Shaped(e) && FreeOnes(d, own) && Within(t) && SameOutside(d, e, t)
    requires e.free[t.a] && e.free[t.b] && e.free[t.c] && e.desc[t.a] == e.desc[t.b] == e.desc[t.c] == CLEAR
    ensures FreeOnes(e, own - {t.a, t.b, t.c})
  {
  }

  lemma FinishDescs(d: Disk, e: Disk, chains: Chains, own: map<nat, nat>, h: nat)
    requires Shaped(d) && Shaped(e) && Descs(d, chains, own) && h in chains && Within(ChainOf(chains, h))
    requires SameOutside(d, e, ChainOf(chains, h))
    requires var t := ChainOf(chains, h);
      e.free[t.a] && e.free[t.b] && e.free[t.c] && e.desc[t.a] == e.desc[t.b] == e.desc[t.c] == CLEAR
    ensures Descs(e, chains - {h}, own - {h, chains[h].second, chains[h].third})
  {
    hide Formatted, FreeOnes, SameOutside;
    var t := ChainOf(chains, h);
    forall g | g in chains && g != h ensures Formatted(e, g, chains[g]) {
      OthersApart(chains, own, h, g);
      ChainKept(d, e, t, g, chains[g]);
    }
    OwnersLess(chains, own, h);
    FreeMore(d, e, own, t);
    hide Owners;
  }

  lemma OthersApart(chains: Chains, own: map<nat, nat>, h: nat, g: nat)
    requires Owners(chains, own) && h in chains && g in chains && g != h
    ensures var t := ChainOf(chains, h); !Has(t, g) && !Has(t, chains[g].second) && !Has(t, chains[g].third)
  {
    OwnedBy(chains, own, g, g, h);
    OwnedBy(chains, own, g, chains[g].second, h);
    OwnedBy(chains, own, g, chains[g].third, h);
  }

  /** No descriptor is in two chains. */
  lemma OwnedBy(chains: Chains, own: map<nat, nat>, g: nat, i: nat, h: nat)
    requires Owners(chains, own) && g in chains && h in chains && Has(ChainOf(chains, g), i)
    ensures i in own && own[i] == g && (Has(ChainOf(chains, h), i) ==> g == h)
  {
  }

  /** The requester's buffer is done exactly because its own chain has been consumed. */
  lemma FinishOwn(w: World, p: nat)
    requires Inv(w) && p in w.procs && w.procs[p].Waiting?
    ensures w.procs[p].head in w.chains && w.chains[w.procs[p].head].p == p && w.chains[w.procs[p].head].b == w.procs[p].b
    ensures w.procs[p].b !in w.d.onDisk <==> w.procs[p].head in w.f.released
  {
    hide Descs, Rings, Places, Sleepers;
  }

  lemma FinishPlaces(chains: Chains, f: Flow, h: nat)
    requires Places(chains, f) && h in f.released
    ensures Places(chains - {h}, f.(released := f.released - {h}))
  {
  }

  lemma FinishPeople(w: World, p: nat)
    requires Inv(w) && Enabled(w, Finish(p)) && w.procs[p].head in w.chains
    ensures People(w.chains - {w.procs[p].head}, w.procs - {p})
    ensures Sleepers(w.d.free, w.d.onDisk, w.procs - {p}, w.asleep - ForFree(w))
    ensures Marks(w.d, w.chains - {w.procs[p].head}, w.f.(released := w.f.released - {w.procs[p].head}))
    ensures forall q :: q in w.asleep - ForFree(w) ==> q in w.procs && w.procs[q].Waiting?
  {
    hide Descs, Rings, Places, Pick;
  }

  lemma FinishOk(w: World, p: nat)
    requires Inv(w) && Enabled(w, Finish(p))
    ensures Inv(Next(w, Finish(p)))
  {
    hide Descs, Rings, Places, Marks, People, Sleepers, Pick;
    FinishReady(w, p);
    FinishOwn(w, p);
    var h := w.procs[p].head;
    var e := Finished(w.d, ChainOf(w.chains, h));
    FinishDescs(w.d, e, w.chains, w.own, h);
    FinishPlaces(w.chains, w.f, h);
    FinishPeople(w, p);
    RingsKept(w.d, e, w.f, w.f.(released := w.f.released - {h}));
    MarksKept(w, e, h);
    SleepersKept(w.d.free, e.free, w.d.onDisk, w.procs - {p}, w.asleep - ForFree(w));
  }

  lemma RingsKept(d: Disk, e: Disk, f: Flow, g: Flow)
    requires Shaped(d) && Shaped(e) && Rings(d, f) && e.avail == d.avail && e.used == d.used
    requires e.availIdx == d.availIdx && e.taken == d.taken && e.doneIdx == d.doneIdx && e.usedIdx == d.usedIdx
    requires g == f.(released := g.released)
    ensures Rings(e, g)
  {
  }

  lemma MarksKept(w: World, e: Disk, h: nat)
    requires Inv(w) && Shaped(e) && h in w.f.released && e.onDisk == w.d.onDisk
    requires forall i :: 0 <= i < NUM && i != h ==> e.info[i] == w.d.info[i]
    requires Marks(w.d, w.chains - {h}, w.f.(released := w.f.released - {h}))
    ensures Marks(e, w.chains - {h}, w.f.(released := w.f.released - {h}))
  {
    hide Descs, Rings, People, Sleepers;
  }

  lemma SleepersKept(free: seq<bool>, free': seq<bool>, onDisk: set<nat>, procs: Procs, asleep: set<nat>)
    requires Sleepers(free, onDisk, procs, asleep) && forall q :: q in asleep ==> q in procs && procs[q].Waiting?
    ensures Sleepers(free', onDisk, procs, asleep)
  {
  }

  // the device takes a request

  lemma TakesHead(w: World)
    requires Inv(w) && w.d.taken != w.d.availIdx
    ensures w.f.queue != [] && w.d.avail[w.d.taken % NUM] == w.f.queue[0]
  {
    hide Descs, Places, Marks, People, Sleepers;
    assert w.f.queue != [];
    WrapRing(w.f.took);
    RingPop(w.d.avail, w.f.took, w.f.queue);
  }

  lemma TakePlaces(chains: Chains, f: Flow)
    requires Places(chains, f) && f.queue != []
    ensures f.queue[0] !in f.busy && Places(chains, f.(queue := f.queue[1..], busy := f.busy + {f.queue[0]}, took := f.took + 1))
  {
    assert forall h :: h in f.queue <==> h == f.queue[0] || h in f.queue[1..];
    assert f.queue[0] in f.queue;
  }

  lemma TakeOk(w: World)
    requires Inv(w) && Enabled(w, Take)
    ensures Inv(Next(w, Take))
  {
    hide Descs, Places, Marks, People, Sleepers, Ring;
    var f := w.f;
    TakesHead(w);
    TakePlaces(w.chains, f);
    RingPop(w.d.avail, f.took, f.queue);
    WrapRing(f.took);
    var g := f.(queue := f.queue[1..], busy := f.busy + {f.queue[0]}, took := f.took + 1);
    assert Rings(Taken(w.d), g);
    DescsKept(w.d, Taken(w.d), w.chains, w.own);
    MarksSame(w.d, Taken(w.d), w.chains, f, g);
  }

  lemma DescsKept(d: Disk, e: Disk, chains: Chains, own: map<nat, nat>)
    requires Shaped(d) && Shaped(e) && Descs(d, chains, own) && e.desc == d.desc && e.free == d.free && e.ops == d.ops
    requires forall i :: 0 <= i < NUM ==> e.info[i].b == d.info[i].b
    ensures Descs(e, chains, own)
  {
    hide Owners;
  }

  lemma MarksSame(d: Disk, e: Disk, chains: Chains, f: Flow, g: Flow)
    requires Shaped(d) && Shaped(e) && Marks(d, chains, f) && e.info == d.info && e.onDisk == d.onDisk
    requires g.ready == f.ready && g.released == f.released
    ensures Marks(e, chains, g)
  {
  }

  // the device completes a request

  /** The device moves the data that was asked for, between the buffer and the sector that were asked for. */
  lemma CompleteMoves(d: Disk, h: nat, c: Chain)
    requires Shaped(d) && Formatted(d, h, c)
    ensures var e := Done(d, h);
      && Shaped(e) && e.info == d.info[h := d.info[h].(status := 0)]
      && e.used == d.used[d.doneIdx % NUM := h]
      && (if c.write then e.bufs == d.bufs else e.sectors == d.sectors && forall b :: b != c.b ==> (b in e.bufs <==> b in d.bufs) && (b in d.bufs ==> e.bufs[b] == d.bufs[b]))
      && (c.write && c.b in d.bufs ==> e.sectors == d.sectors[c.blockno * 2 := d.bufs[c.b]] && e.bufs == d.bufs)
      && (!c.write && c.blockno * 2 in d.sectors ==> e.bufs == d.bufs[c.b := d.sectors[c.blockno * 2]] && e.sectors == d.sectors)
  {
  }

  lemma CompletePlaces(chains: Chains, f: Flow, h: nat)
    requires Places(chains, f) && h in f.busy
    ensures h !in f.ready && Places(chains, f.(busy := f.busy - {h}, ready := f.ready + [h], completed := f.completed + 1))
  {
  }

  lemma CompleteRings(w: World, h: nat)
    requires Inv(w) && h in w.f.busy && h < NUM && h !in w.f.ready && Shaped(Done(w.d, h))
    ensures Rings(Done(w.d, h), w.f.(busy := w.f.busy - {h}, ready := w.f.ready + [h], completed := w.f.completed + 1))
  {
    hide Descs, Marks, People, Sleepers, Ring, Distinct;
    var f := w.f;
    QueueHeads(w.d, w.chains, w.own, f.ready);
    FewInRing(f.ready, h);
    RingPush(w.d.used, f.consumed, f.ready, h);
    WrapRing(f.completed);
    hide Places;
  }

  lemma CompleteOk(w: World, h: nat)
    requires Inv(w) && Enabled(w, Complete(h))
    ensures Inv(Next(w, Complete(h)))
  {
    hide Descs, Rings, Places, Marks, People, Sleepers, Done, Formatted;
    CompleteReady(w, h);
    HeadFormatted(w.d, w.chains, w.own, h);
    CompleteMoves(w.d, h, w.chains[h]);
    CompletePlaces(w.chains, w.f, h);
    CompleteRings(w, h);
    var e := Done(w.d, h);
    DoneKeeps(w.d, h);
    DescsKept(w.d, e, w.chains, w.own);
    CompleteMarks(w.d, e, w.chains, w.f, h);
  }

  lemma DoneKeeps(d: Disk, h: nat)
    requires Shaped(d) && h < NUM
    ensures var e := Done(d, h); e.desc == d.desc && e.free == d.free && e.ops == d.ops && e.onDisk == d.onDisk
  {
  }

  lemma CompleteMarks(d: Disk, e: Disk, chains: Chains, f: Flow, h: nat)
    requires Shaped(d) && Shaped(e) && Marks(d, chains, f) && h < NUM && e.info == d.info[h := d.info[h].(status := 0)] && e.onDisk == d.onDisk
    ensures Marks(e, chains, f.(busy := f.busy - {h}, ready := f.ready + [h], completed := f.completed + 1))
  {
  }

  // the interrupt handler consumes a completion

  lemma ConsumesHead(w: World)
    requires Inv(w) && w.d.usedIdx != w.d.doneIdx
    ensures w.f.ready != [] && w.d.used[w.d.usedIdx % NUM] == w.f.ready[0] && w.f.ready[0] in w.chains && w.f.ready[0] < NUM
    ensures Completed(w.d) == Some(w.chains[w.f.ready[0]].b) && w.d.info[w.f.ready[0]].status == 0
  {
    hide Descs, People, Sleepers, Ring;
    assert w.f.ready != [];
    WrapRing(w.f.consumed);
    RingPop(w.d.used, w.f.consumed, w.f.ready);
    assert w.f.ready[0] in w.f.ready;
    HeadFormatted(w.d, w.chains, w.own, w.f.ready[0]);
  }

  lemma ConsumePlaces(chains: Chains, f: Flow)
    requires Places(chains, f) && f.ready != []
    ensures Places(chains, f.(ready := f.ready[1..], released := f.released + {f.ready[0]}, consumed := f.consumed + 1))
  {
    assert forall h :: h in f.ready <==> h == f.ready[0] || h in f.ready[1..];
  }

  /** Each request has its own buffer, so unmarking one leaves the others marked. */
  lemma ConsumeMarks(w: World)
    requires Inv(w) && w.f.ready != [] && w.f.ready[0] in w.chains && Completed(w.d) == Some(w.chains[w.f.ready[0]].b)
    ensures Marks(Consumed(w.d), w.chains, w.f.(ready := w.f.ready[1..], released := w.f.released + {w.f.ready[0]}, consumed := w.f.consumed + 1))
  {
    hide Descs, Rings, Places, Sleepers, Completed;
    var h := w.f.ready[0];
    forall g | g in w.chains && w.chains[g].b == w.chains[h].b ensures g == h {
      assert w.procs[w.chains[g].p].b == w.procs[w.chains[h].p].b;
    }
    assert forall g :: g in w.f.ready[1..] ==> g in w.f.ready;
  }

  lemma ConsumeSleepers(w: World, b: nat)
    requires Inv(w)
    ensures Sleepers(w.d.free, w.d.onDisk - {b}, w.procs, w.asleep - ForBuffer(w, b))
  {
    hide Descs, Rings, Places, Marks, People, Pick;
  }

  lemma InterruptOk(w: World)
    requires Inv(w) && Enabled(w, Interrupt)
    ensures Inv(Next(w, Interrupt))
  {
    hide Descs, Places, Marks, People, Sleepers, Ring, Completed;
    var f := w.f;
    ConsumesHead(w);
    ConsumePlaces(w.chains, f);
    ConsumeMarks(w);
    ConsumeSleepers(w, w.chains[f.ready[0]].b);
    RingPop(w.d.used, f.consumed, f.ready);
    WrapRing(f.consumed);
    var g := f.(ready := f.ready[1..], released := f.released + {f.ready[0]}, consumed := f.consumed + 1);
    assert Rings(Consumed(w.d), g);
    DescsKept(w.d, Consumed(w.d), w.chains, w.own);
  }

  lemma NextOk(w: World, s: Step)
    requires Inv(w) && Enabled(w, s)
    ensures Inv(Next(w, s))
  {
    hide Inv, Next;
    match s
    case Start(p, b, write, blockno) => StartOk(w, p, b, write, blockno);
    case SleepFree(p) => SleepFreeOk(w, p);
    case Submit(p) => SubmitOk(w, p);
    case SleepDone(p) => SleepDoneOk(w, p);
    case Finish(p) => FinishOk(w, p);
    case Take => TakeOk(w);
    case Complete(h) => CompleteOk(w, h);
    case Interrupt => InterruptOk(w);
  }

  // ---- runs ----

  ghost predicate StepTo(w: World, s: Step, v: World) {
    Shaped(w.d) && Enabled(w, s) && v == Next(w, s)
  }

  /** The worlds that a run of `steps` goes through. */
  ghost predicate IsRun(ws: seq<World>, steps: seq<Step>) {
    |ws| == |steps| + 1 && forall i :: 0 <= i < |steps| ==> StepTo(ws[i], steps[i], ws[i + 1])
  }

  lemma StepToOk(w: World, s: Step, v: World)
    requires Inv(w) && StepTo(w, s, v)
    ensures Inv(v)
  {
    hide Inv, Next, Enabled;
    NextOk(w, s);
  }

  lemma {:induction false} RunInv(ws: seq<World>, steps: seq<Step>, i: nat)
    requires IsRun(ws, steps) && Inv(ws[0]) && i <= |steps|
    ensures Inv(ws[i])
  {
    hide Inv, StepTo;
    if i > 0 {
      RunInv(ws, steps, i - 1);
      StepToOk(ws[i - 1], steps[i - 1], ws[i]);
    }
  }

  /** What a step puts in and takes out of the two rings. */
  datatype Traffic = Traffic(published: seq<nat>, taken: seq<nat>, completed: seq<nat>, consumed: seq<nat>)

  ghost function Moves(w: World, s: Step): Traffic {
    if !Shaped(w.d) then Traffic([], [], [], []) else
    match s
    case Submit(_) => Traffic(if Pick(w.d.free).Some? then [Pick(w.d.free).value.a] else [], [], [], [])
    case Take => Traffic([], [w.d.avail[w.d.taken % NUM]], [], [])
    case Complete(h) => Traffic([], [], [h], [])
    case Interrupt => Traffic([], [], [], [w.d.used[w.d.usedIdx % NUM]])
    case _ => Traffic([], [], [], [])
  }

  /** All that passes through the rings in the first `n` steps of a run. */
  ghost function TrafficOf(ws: seq<World>, steps: seq<Step>, n: nat): Traffic
    requires n <= |steps| < |ws|
  {
    if n == 0 then Traffic([], [], [], []) else
    var t, m := TrafficOf(ws, steps, n - 1), Moves(ws[n - 1], steps[n - 1]);
    Traffic(t.published + m.published, t.taken + m.taken, t.completed + m.completed, t.consumed + m.consumed)
  }

  lemma StepTraffic(w: World, s: Step)
    requires Inv(w) && Enabled(w, s)
    ensures w.f.queue + Moves(w, s).published == Moves(w, s).taken + Next(w, s).f.queue
    ensures w.f.ready + Moves(w, s).completed == Moves(w, s).consumed + Next(w, s).f.ready
  {
    hide Descs, Rings, Places, Marks, People, Sleepers, Pick, Submitted, Finished, Done, Consumed, Completed;
    match s
    case Take => TakesHead(w);
    case Interrupt => ConsumesHead(w);
    case Complete(h) => CompleteReady(w, h);
    case _ =>
  }

  /**
   In every run, whatever the indices wrap to: the device takes each published chain exactly once and
   in order, and the handler consumes each completion exactly once and in order.
   */
  lemma {:induction false} ExactlyOnce(ws: seq<World>, steps: seq<Step>, n: nat)
    requires IsRun(ws, steps) && Inv(ws[0]) && n <= |steps|
    ensures var t := TrafficOf(ws, steps, n);
      && ws[0].f.queue + t.published == t.taken + ws[n].f.queue
      && ws[0].f.ready + t.completed == t.consumed + ws[n].f.ready
  {
    hide Inv, Moves, Next, Enabled;
    if n > 0 {
      var w, s := ws[n - 1], steps[n - 1];
      RunInv(ws, steps, n - 1);
      ExactlyOnce(ws, steps, n - 1);
      assert StepTo(w, s, ws[n]);
      StepTraffic(w, s);
      var t, m := TrafficOf(ws, steps, n - 1), Moves(w, s);
      Shift(ws[0].f.queue, t.published, t.taken, w.f.queue, m.published, m.taken, ws[n].f.queue);
      Shift(ws[0].f.ready, t.completed, t.consumed, w.f.ready, m.completed, m.consumed, ws[n].f.ready);
    }
  }

  lemma Shift(q: seq<nat>, ins: seq<nat>, outs: seq<nat>, r: seq<nat>, more: seq<nat>, gone: seq<nat>, left: seq<nat>)
    requires q + ins == outs + r && r + more == gone + left
    ensures q + (ins + more) == (outs + gone) + left
  {
    assert q + (ins + more) == (q + ins) + more == outs + (r + more) == outs + (gone + left);
  }

  ghost predicate Landed(f: Flow, h: nat) {
    h in f.ready || h in f.released
  }

  /** Only the completion of a chain makes it land, and only its consumption releases it. */
  lemma PhaseStep(w: World, s: Step, h: nat)
    requires Inv(w) && Enabled(w, s)
    ensures !Landed(w.f, h) && Landed(Next(w, s).f, h) ==> s == Complete(h)
    ensures h !in w.f.released && h in Next(w, s).f.released ==> s == Interrupt && Moves(w, s).consumed == [h]
  {
    hide Descs, Rings, Places, Marks, People, Sleepers, Pick, Submitted, Finished, Done, Consumed, Completed;
    if s.Interrupt? {
      ConsumesHead(w);
      assert w.f.ready[0] in w.f.ready;
      assert forall g :: g in w.f.ready[1..] ==> g in w.f.ready;
    }
  }

  lemma {:induction false} LandedBy(ws: seq<World>, steps: seq<Step>, i: nat, j: nat, h: nat) returns (k: nat)
    requires IsRun(ws, steps) && Inv(ws[0]) && i <= j <= |steps| && !Landed(ws[i].f, h) && Landed(ws[j].f, h)
    ensures i <= k < j && steps[k] == Complete(h) && forall m :: k < m <= j ==> Landed(ws[m].f, h)
    decreases j
  {
    hide Inv, Next, Enabled, Landed, Moves;
    assert i < j && StepTo(ws[j - 1], steps[j - 1], ws[j]);
    RunInv(ws, steps, j - 1);
    PhaseStep(ws[j - 1], steps[j - 1], h);
    if Landed(ws[j - 1].f, h) { k := LandedBy(ws, steps, i, j - 1, h); } else { k := j - 1; }
  }

  lemma {:induction false} ReleasedBy(ws: seq<World>, steps: seq<Step>, i: nat, j: nat, h: nat) returns (k: nat)
    requires IsRun(ws, steps) && Inv(ws[0]) && i <= j <= |steps| && h !in ws[i].f.released && h in ws[j].f.released
    ensures i <= k < j && steps[k] == Interrupt && Moves(ws[k], steps[k]).consumed == [h]
    decreases j
  {
    hide Inv, Next, Enabled, Moves;
    assert i < j && StepTo(ws[j - 1], steps[j - 1], ws[j]);
    RunInv(ws, steps, j - 1);
    PhaseStep(ws[j - 1], steps[j - 1], h);
    if h in ws[j - 1].f.released { k := ReleasedBy(ws, steps, i, j - 1, h); } else { k := j - 1; }
  }

  /**
   Between the submission of a request and the moment its requester goes on, the device has completed
   that very chain and the handler has consumed that very completion.
   */
  lemma OwnCompletion(ws: seq<World>, steps: seq<Step>, i: nat, j: nat, p: nat) returns (c: nat, k: nat)
    requires IsRun(ws, steps) && Inv(ws[0]) && i < j < |steps| && steps[i] == Submit(p) && steps[j] == Finish(p)
    requires forall m :: i < m < j ==> steps[m] != Finish(p)
    ensures p in ws[i + 1].procs && p in ws[j].procs && ws[j].procs[p] == ws[i + 1].procs[p] && ws[j].procs[p].Waiting?
    ensures i < c < j && steps[c] == Complete(ws[j].procs[p].head) && forall m :: c < m <= j ==> Landed(ws[m].f, ws[j].procs[p].head)
    ensures i < k < j && steps[k] == Interrupt && Moves(ws[k], steps[k]).consumed == [ws[j].procs[p].head]
  {
    hide Inv, Moves, Landed;
    KeepsWaiting(ws, steps, i, j, p);
    var h := ws[j].procs[p].head;
    RunInv(ws, steps, i);
    RunInv(ws, steps, i + 1);
    RunInv(ws, steps, j);
    assert StepTo(ws[i], steps[i], ws[i + 1]) && StepTo(ws[j], steps[j], ws[j + 1]);
    FinishOwn(ws[j], p);
    FreshHead(ws[i + 1], h);
    LandedIf(ws[j].f, h);
    hide *;
    c := LandedBy(ws, steps, i + 1, j, h);
    k := ReleasedBy(ws, steps, i + 1, j, h);
  }

  /** A requester's record stays as it is from its submission until it goes on. */
  lemma {:induction false} KeepsWaiting(ws: seq<World>, steps: seq<Step>, i: nat, j: nat, p: nat)
    requires IsRun(ws, steps) && i < j < |steps| && steps[i] == Submit(p) && forall m :: i < m < j ==> steps[m] != Finish(p)
    ensures p in ws[i + 1].procs && p in ws[j].procs && ws[j].procs[p] == ws[i + 1].procs[p] && ws[j].procs[p].Waiting?
  {
    hide Inv, Next, Enabled, Shaped;
    assert StepTo(ws[j - 1], steps[j - 1], ws[j]);
    if i + 1 < j { KeepsWaiting(ws, steps, i, j - 1, p); }
    StepKeepsWaiting(ws[j - 1], steps[j - 1], p);
  }

  lemma StepKeepsWaiting(w: World, s: Step, p: nat)
    requires Shaped(w.d) && Enabled(w, s)
    ensures s == Submit(p) ==> p in Next(w, s).procs && Next(w, s).procs[p].Waiting?
    ensures p in w.procs && w.procs[p].Waiting? && s != Finish(p) ==> p in Next(w, s).procs && Next(w, s).procs[p] == w.procs[p]
  {
    hide Pick, Submitted, Finished, Done, Consumed, Completed, Taken, ForFree, ForBuffer, FirstFree;
  }

  lemma LandedIf(f: Flow, h: nat)
    ensures h in f.released ==> Landed(f, h)
  {
  }

  lemma FreshHead(w: World, h: nat)
    requires Inv(w) && h in w.f.queue
    ensures !Landed(w.f, h) && h !in w.f.released
  {
    hide Descs, Rings, Marks, People, Sleepers;
  }

  // ---- what the invariant means ----

  predicate InChain(chains: Chains, h: nat, i: nat) {
    h in chains && Has(ChainOf(chains, h), i)
  }

  /** Each descriptor is free or in exactly one chain. */
  lemma DescriptorsShared(d: Disk, chains: Chains, own: map<nat, nat>, i: nat)
    requires Shaped(d) && Descs(d, chains, own) && i < NUM
    ensures d.free[i] <==> forall h :: !InChain(chains, h, i)
    ensures forall h, g :: InChain(chains, h, i) && InChain(chains, g, i) ==> h == g
  {
    hide Formatted;
    if i in own { assert InChain(chains, own[i], i); }
    forall h | InChain(chains, h, i) ensures i in own && own[i] == h { }
    hide Owners;
  }

  predicate NoneFree(d: Disk, t: Three) {
    t.a < |d.free| && t.b < |d.free| && t.c < |d.free| && !d.free[t.a] && !d.free[t.b] && !d.free[t.c]
  }

  /** `free_desc` never meets a free descriptor. */
  lemma FreeDescOk(w: World, p: nat)
    requires Inv(w) && p in w.procs && w.procs[p].Waiting?
    ensures w.procs[p].head in w.chains && NoneFree(w.d, ChainOf(w.chains, w.procs[p].head))
  {
    FinishReady(w, p);
    hide Rings, Places, Marks, People, Sleepers, Formatted;
    var t := ChainOf(w.chains, w.procs[p].head);
    assert Has(t, t.a) && Has(t, t.b) && Has(t, t.c);
  }

  /** When every requester sleeps, the device or the interrupt handler can move: no wakeup is lost. */
  lemma NoDeadlock(w: World)
    requires Inv(w) && |w.procs| > 0 && forall p :: p in w.procs ==> p in w.asleep
    ensures Enabled(w, Take) || Enabled(w, Interrupt) || exists h :: Enabled(w, Complete(h))
  {
    var p :| p in w.procs;
    if w.procs[p].Waiting? {
      PendingMoves(w, p);
    } else {
      ChainExists(w, p);
      var h :| h in w.chains;
      hide Descs, Rings, Places, Marks;
      PendingMoves(w, w.chains[h].p);
    }
  }

  /** Someone sleeps for descriptors, so some request is in flight. */
  lemma ChainExists(w: World, p: nat)
    requires Inv(w) && p in w.asleep && p in w.procs && w.procs[p].Wanting?
    ensures exists h :: h in w.chains
  {
    hide Rings, Places, Marks, People, Formatted;
    assert !w.d.free[0] || !w.d.free[1] || !w.d.free[2];
    var i :| 0 <= i < NUM && !w.d.free[i];
    assert i in w.own;
  }

  lemma PendingMoves(w: World, p: nat)
    requires Inv(w) && p in w.procs && w.procs[p].Waiting? && p in w.asleep
    ensures Enabled(w, Take) || Enabled(w, Interrupt) || Enabled(w, Complete(w.procs[p].head))
  {
    hide Descs, Rings, Marks, People;
    FinishOwn(w, p);
    var h := w.procs[p].head;
    if h in w.f.queue { QueueMoves(w); } else if h in w.f.ready { ReadyMoves(w); }
  }

  lemma QueueMoves(w: World)
    requires Inv(w) && w.f.queue != []
    ensures w.d.taken != w.d.availIdx
  {
    hide Descs, Marks, People, Sleepers, Ring, Distinct;
    QueueHeads(w.d, w.chains, w.own, w.f.queue);
    Pigeonhole(w.f.queue, NUM);
    ApartIndex(w.f.took, |w.f.queue|);
  }

  lemma ReadyMoves(w: World)
    requires Inv(w) && w.f.ready != []
    ensures w.d.usedIdx != w.d.doneIdx
  {
    hide Descs, Marks, People, Sleepers, Ring, Distinct;
    QueueHeads(w.d, w.chains, w.own, w.f.ready);
    Pigeonhole(w.f.ready, NUM);
    ApartIndex(w.f.consumed, |w.f.ready|);
  }

  /** Before any request: every descriptor free, rings empty. */
  lemma InitOk(d: Disk)
    requires Shaped(d) && d.availIdx == d.taken == d.doneIdx == d.usedIdx == 0
    requires forall i :: 0 <= i < NUM ==> d.free[i] && d.desc[i] == CLEAR
    ensures Inv(World(d, map[], {}, map[], map[], Flow([], {}, [], {}, 0, 0, 0, 0)))
  {
  }
}
