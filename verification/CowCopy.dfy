/**
 `copyout` and `copyin` across page boundaries, on the flat machine and on views. Bytes copied out
 are the bytes copied back in, and nothing else changes.
 */
module CowCopy {
  import opened Options
  import opened Cow
  import opened CowRuns
  import opened PageTable

  /** How much of `len` bytes at `va` lies in the first page, and where the next page begins. */
  function Chunk(va: nat, len: nat): (n: nat)
    ensures len > 0 ==> 0 < n <= len && va % PGSIZE + n <= PGSIZE
  {
    if PGSIZE - va % PGSIZE > len then len else PGSIZE - va % PGSIZE
  }

  function NextPage(va: nat): nat {
    (va / PGSIZE + 1) * PGSIZE
  }

  lemma NextPageIs(va: nat)
    ensures NextPage(va) / PGSIZE == va / PGSIZE + 1 && NextPage(va) % PGSIZE == 0
  {
  }

  ghost predicate UserPage(s: State, a: Va) {
    a.page < MAXPAGES && a in s.pt && s.pt[a].flags.u
  }

  // ---- on the machine ----

  lemma CopyoutPages(s: State, a: Va, off: nat, data: seq<Byte>)
    requires Inv(s) && off + |data| <= PGSIZE
    ensures Inv(Copyout(s, a, off, data))
    ensures |Copyout(s, a, off, data).free| >= |s.free| - 1
    ensures forall b :: UserPage(Copyout(s, a, off, data), b) <==> UserPage(s, b)
  {
    WritesSafe(s, a, off, data);
    CopyoutPt(s, a, off, data);
    hide Inv, Copyout;
  }

  lemma CopyoutPt(s: State, a: Va, off: nat, data: seq<Byte>)
    requires Inv(s) && off + |data| <= PGSIZE
    ensures var t := Copyout(s, a, off, data);
      && |t.free| >= |s.free| - 1
      && t.pt == if a in s.pt && s.pt[a].flags.u && s.pt[a].flags.cow && s.free != []
           then s.pt[a := Leaf(s.free[0], s.pt[a].flags.(w := true))] else s.pt
  {
    if a in s.pt && s.pt[a].flags.u && s.pt[a].flags.cow && s.free != [] {
      FaultOk(s, a);
      FaultPages(s, a);
      hide Inv, Fault, ViewOf, Splice;
    }
  }

  lemma FaultPages(s: State, a: Va)
    requires Inv(s) && a in s.pt && s.free != []
    ensures var t := Fault(s, a);
      |t.free| >= |s.free| - 1 && t.pt == s.pt[a := Leaf(s.free[0], s.pt[a].flags.(w := true))]
  {
    KallocOk(s, s.frames[s.pt[a].frame].page);
    hide Inv, ViewOf;
    assert (s.pt - {a})[a := Leaf(s.free[0], s.pt[a].flags.(w := true))] == s.pt[a := Leaf(s.free[0], s.pt[a].flags.(w := true))];
  }

  /** `copyout`: stops with `false` at the first page that is not a user page. */
  ghost function CopyoutAll(s: State, root: nat, va: nat, src: seq<Byte>): (State, bool)
    requires Inv(s)
    decreases |src|
  {
    if src == [] then (s, true) else
    var a, n := Va(root, va / PGSIZE), Chunk(va, |src|);
    if !UserPage(s, a) then (s, false) else
    CopyoutPages(s, a, va % PGSIZE, src[..n]);
    CopyoutAll(Copyout(s, a, va % PGSIZE, src[..n]), root, NextPage(va), src[n..])
  }

  /** `copyin`: the bytes, or nothing if some page is not a user page. */
  ghost function CopyinAll(s: State, root: nat, va: nat, len: nat): Option<seq<Byte>>
    requires Backed(s)
    decreases len
  {
    if len == 0 then Some([]) else
    var a, n := Va(root, va / PGSIZE), Chunk(va, len);
    if !UserPage(s, a) then None else
    var rest := CopyinAll(s, root, NextPage(va), len - n);
    if rest.None? then None
    else Some(s.frames[s.pt[a].frame].page[va % PGSIZE..va % PGSIZE + n] + rest.value)
  }

  // ---- on views ----

  ghost predicate UserView(views: Views, a: Va) {
    a.page < MAXPAGES && a in views && views[a].u
  }

  ghost function SpecCopyout(views: Views, root: nat, va: nat, src: seq<Byte>): (Views, bool)
    decreases |src|
  {
    if src == [] then (views, true) else
    var a, n := Va(root, va / PGSIZE), Chunk(va, |src|);
    if !UserView(views, a) then (views, false) else
    SpecCopyout(SpecWrite(views, a, va % PGSIZE, src[..n]), root, NextPage(va), src[n..])
  }

  ghost function SpecCopyin(views: Views, root: nat, va: nat, len: nat): Option<seq<Byte>>
    decreases len
  {
    if len == 0 then Some([]) else
    var a, n := Va(root, va / PGSIZE), Chunk(va, len);
    if !UserView(views, a) then None else
    var rest := SpecCopyin(views, root, NextPage(va), len - n);
    if rest.None? then None else Some(views[a].page[va % PGSIZE..va % PGSIZE + n] + rest.value)
  }

  lemma UserIff(s: State, a: Va)
    requires Backed(s)
    ensures UserPage(s, a) <==> UserView(ViewOf(s), a)
  {
  }

  /** Page by page, `kalloc` succeeds or the write is right without it. */
  ghost predicate NeverShort(s: State, root: nat, va: nat, src: seq<Byte>)
    requires Inv(s)
    decreases |src|
  {
    var a, n := Va(root, va / PGSIZE), Chunk(va, |src|);
    src == [] || !UserPage(s, a) ||
    (CopyoutRight(s, a, va % PGSIZE, src[..n]) &&
     (CopyoutPages(s, a, va % PGSIZE, src[..n]); NeverShort(Copyout(s, a, va % PGSIZE, src[..n]), root, NextPage(va), src[n..])))
  }

  /** When memory does not run out, `copyout` does to the views what it should. */
  lemma {:induction false} CopyoutRefines(s: State, root: nat, va: nat, src: seq<Byte>)
    requires Inv(s) && NeverShort(s, root, va, src)
    ensures var r := CopyoutAll(s, root, va, src);
      Inv(r.0) && (ViewOf(r.0), r.1) == SpecCopyout(ViewOf(s), root, va, src)
    decreases |src|
  {
    if src != [] {
      var a, n := Va(root, va / PGSIZE), Chunk(va, |src|);
      UserIff(s, a);
      if UserPage(s, a) {
        CopyoutOk(s, a, va % PGSIZE, src[..n]);
        CopyoutPages(s, a, va % PGSIZE, src[..n]);
        hide Inv, Copyout, SpecWrite, ViewOf;
        CopyoutRefines(Copyout(s, a, va % PGSIZE, src[..n]), root, NextPage(va), src[n..]);
      }
    }
  }

  /** How many pages `len` bytes at `va` touch. */
  function PagesTouched(va: nat, len: nat): nat
    decreases len
  {
    if len == 0 then 0 else 1 + PagesTouched(NextPage(va), len - Chunk(va, len))
  }

  /** A free frame for each page is enough. */
  lemma {:induction false} EnoughFrames(s: State, root: nat, va: nat, src: seq<Byte>)
    requires Inv(s) && |s.free| >= PagesTouched(va, |src|)
    ensures NeverShort(s, root, va, src)
    decreases |src|
  {
    var a, n := Va(root, va / PGSIZE), Chunk(va, |src|);
    if src != [] && UserPage(s, a) {
      CopyoutPages(s, a, va % PGSIZE, src[..n]);
      hide Inv, Copyout;
      EnoughFrames(Copyout(s, a, va % PGSIZE, src[..n]), root, NextPage(va), src[n..]);
    }
  }

  lemma {:induction false} CopyinRefines(s: State, root: nat, va: nat, len: nat)
    requires Backed(s)
    ensures CopyinAll(s, root, va, len) == SpecCopyin(ViewOf(s), root, va, len)
    decreases len
  {
    if len > 0 {
      var a, n := Va(root, va / PGSIZE), Chunk(va, len);
      UserIff(s, a);
      CopyinRefines(s, root, NextPage(va), len - n);
      if UserPage(s, a) { ViewAt(s, a); }
      hide ViewOf, Chunk;
    }
  }

  /** `copyout` at `va` leaves every page below that of `va`, and every other space, alone. */
  lemma {:induction false} CopyoutAway(views: Views, root: nat, va: nat, src: seq<Byte>, b: Va)
    requires b.space != root || b.page < va / PGSIZE
    ensures var w := SpecCopyout(views, root, va, src).0;
      (b in w <==> b in views) && (b in views ==> w[b] == views[b])
    decreases |src|
  {
    if src != [] {
      var a, n := Va(root, va / PGSIZE), Chunk(va, |src|);
      NextPageIs(va);
      if UserView(views, a) {
        CopyoutAway(SpecWrite(views, a, va % PGSIZE, src[..n]), root, NextPage(va), src[n..], b);
      }
    }
  }

  lemma SpliceAt(page: Page, off: nat, data: seq<Byte>)
    requires off + |data| <= PGSIZE
    ensures Splice(page, off, data)[off..off + |data|] == data
  {
  }

  /** What `copyout` wrote, `copyin` reads back. */
  lemma {:induction false} CopyRoundTrip(views: Views, root: nat, va: nat, src: seq<Byte>)
    requires SpecCopyout(views, root, va, src).1
    ensures SpecCopyin(SpecCopyout(views, root, va, src).0, root, va, |src|) == Some(src)
    decreases |src|
  {
    if src != [] {
      var a, n, off := Va(root, va / PGSIZE), Chunk(va, |src|), va % PGSIZE;
      var v := SpecWrite(views, a, off, src[..n]);
      NextPageIs(va);
      SpliceAt(views[a].page, off, src[..n]);
      CopyRoundTrip(v, root, NextPage(va), src[n..]);
      CopyoutAway(v, root, NextPage(va), src[n..], a);
      assert src == src[..n] + src[n..];
      hide Splice, Chunk, NextPage;
    }
  }

  // ---- byte by byte ----

  /** The byte at address `v` of a space. */
  ghost function ByteAt(views: Views, root: nat, v: nat): Byte
    requires Va(root, v / PGSIZE) in views
  {
    views[Va(root, v / PGSIZE)].page[v % PGSIZE]
  }

  /** The pages of the addresses from `va` on are user pages. */
  ghost predicate UserRange(views: Views, root: nat, va: nat, len: nat) {
    forall v: nat :: va <= v < va + len ==> UserView(views, Va(root, v / PGSIZE))
  }

  /** The bytes from `va` on are those of `src`, all others and all permissions are as before. */
  ghost predicate Copied(views: Views, views': Views, root: nat, va: nat, src: seq<Byte>) {
    && views'.Keys == views.Keys
    && (forall b :: b in views ==> views'[b] == views[b].(page := views'[b].page))
    && forall r: nat, v: nat {:trigger ByteAt(views', r, v)} :: Va(r, v / PGSIZE) in views ==>
         ByteAt(views', r, v) == if r == root && va <= v < va + |src| then src[v - va] else ByteAt(views, r, v)
  }

  lemma ChunkEnd(va: nat, len: nat, n: nat)
    requires len > 0 && n == Chunk(va, len)
    ensures 0 < n <= len && va % PGSIZE + n <= PGSIZE && (n < len ==> NextPage(va) == va + n)
  {
  }

  lemma InPage(va: nat, n: nat, v: nat)
    requires va % PGSIZE + n <= PGSIZE && va <= v < va + n
    ensures v / PGSIZE == va / PGSIZE && v % PGSIZE == va % PGSIZE + v - va
  {
  }

  lemma OneCopied(views: Views, root: nat, va: nat, src: seq<Byte>)
    requires src != [] && UserView(views, Va(root, va / PGSIZE)) && va % PGSIZE + |src| <= PGSIZE
    ensures Copied(views, SpecWrite(views, Va(root, va / PGSIZE), va % PGSIZE, src), root, va, src)
  {
    var a, off := Va(root, va / PGSIZE), va % PGSIZE;
    var w := SpecWrite(views, a, off, src);
    SpecWriteBytes(views, a, off, src);
    hide SpecWrite;
    forall r: nat, v: nat | Va(r, v / PGSIZE) in views
      ensures ByteAt(w, r, v) == if r == root && va <= v < va + |src| then src[v - va] else ByteAt(views, r, v)
    {
      assert va == PGSIZE * a.page + off && v == PGSIZE * (v / PGSIZE) + v % PGSIZE;
    }
  }

  lemma CopiedTwice(views: Views, w: Views, u: Views, root: nat, va: nat, x: seq<Byte>, y: seq<Byte>)
    requires Copied(views, w, root, va, x) && Copied(w, u, root, va + |x|, y)
    ensures Copied(views, u, root, va, x + y)
  {
    hide ByteAt;
    forall r: nat, v: nat | Va(r, v / PGSIZE) in views
      ensures ByteAt(u, r, v) == if r == root && va <= v < va + |x + y| then (x + y)[v - va] else ByteAt(views, r, v)
    {
      assert Va(r, v / PGSIZE) in w;
      var b := ByteAt(w, r, v);
    }
  }

  lemma CopiedNone(views: Views, root: nat, va: nat)
    ensures Copied(views, views, root, va, [])
  {
  }

  /** The first `done` bytes were copied, up to the first page that is no user page. */
  ghost predicate CopiedUpTo(views: Views, r: (Views, bool), root: nat, va: nat, src: seq<Byte>, done: nat) {
    && done <= |src| && UserRange(views, root, va, done)
    && (done < |src| ==> !UserView(views, Va(root, (va + done) / PGSIZE)))
    && Copied(views, r.0, root, va, src[..done])
    && (r.1 <==> done == |src|)
  }

  /** `copyout` copies bytes up to the first page that is no user page, each to its address. */
  lemma {:induction false} CopyoutBytes(views: Views, root: nat, va: nat, src: seq<Byte>) returns (done: nat)
    ensures CopiedUpTo(views, SpecCopyout(views, root, va, src), root, va, src, done)
    decreases |src|
  {
    hide CopiedUpTo, SpecWrite, Chunk, NextPage, SpecCopyout;
    CopyoutStep(views, root, va, src);
    if src == [] || !UserView(views, Va(root, va / PGSIZE)) {
      done := 0;
      CopiedNothing(views, root, va, src);
    } else {
      var n := Chunk(va, |src|);
      ChunkEnd(va, |src|, n);
      var w := SpecWrite(views, Va(root, va / PGSIZE), va % PGSIZE, src[..n]);
      var more := CopyoutBytes(w, root, NextPage(va), src[n..]);
      done := n + more;
      if n == |src| { CopyoutStep(w, root, NextPage(va), src[n..]); }
      CopyoutMore(views, SpecCopyout(w, root, NextPage(va), src[n..]), root, va, src, n, NextPage(va), more);
    }
  }

  lemma CopiedNothing(views: Views, root: nat, va: nat, src: seq<Byte>)
    requires src == [] || !UserView(views, Va(root, va / PGSIZE))
    ensures CopiedUpTo(views, (views, src == []), root, va, src, 0)
  {
    assert src[..0] == [];
    CopiedNone(views, root, va);
    hide Copied, UserView;
  }

  lemma CopyoutMore(views: Views, r: (Views, bool), root: nat, va: nat, src: seq<Byte>, n: nat, next: nat, more: nat)
    requires 0 < n <= |src| && va % PGSIZE + n <= PGSIZE && (n < |src| ==> next == va + n) && UserView(views, Va(root, va / PGSIZE))
    requires var w := SpecWrite(views, Va(root, va / PGSIZE), va % PGSIZE, src[..n]);
      CopiedUpTo(w, r, root, next, src[n..], more) && (n == |src| ==> r == (w, true))
    ensures CopiedUpTo(views, r, root, va, src, n + more)
  {
    var w := SpecWrite(views, Va(root, va / PGSIZE), va % PGSIZE, src[..n]);
    OneCopied(views, root, va, src[..n]);
    SameUsers(views, w, root, va, src[..n]);
    RangeSplit(views, root, va, n, n);
    RangeNone(views, root, va + n);
    hide SpecWrite, Copied, UserRange, UserView;
    assert va + (n + more) == va + n + more;
    CopyoutJoin(views, w, r.0, root, va, src, n, more);
  }

  lemma CopyoutJoin(views: Views, w: Views, u: Views, root: nat, va: nat, src: seq<Byte>, n: nat, more: nat)
    requires n + more <= |src| && UserRange(views, root, va, n) && Copied(views, w, root, va, src[..n])
    requires forall b :: UserView(w, b) <==> UserView(views, b)
    requires n == |src| ==> u == w
    requires n < |src| ==> UserRange(w, root, va + n, more) && Copied(w, u, root, va + n, src[n..][..more])
    ensures UserRange(views, root, va, n + more) && Copied(views, u, root, va, src[..n + more])
  {
    hide Copied, UserView, ByteAt;
    if n < |src| {
      assert src[..n] + src[n..][..more] == src[..n + more];
      CopiedTwice(views, w, u, root, va, src[..n], src[n..][..more]);
      hide UserRange;
      SameRanges(views, w, root, va, n, n + more);
    }
  }

  lemma CopyoutStep(views: Views, root: nat, va: nat, src: seq<Byte>)
    ensures src == [] ==> SpecCopyout(views, root, va, src) == (views, true)
    ensures src != [] && !UserView(views, Va(root, va / PGSIZE)) ==> SpecCopyout(views, root, va, src) == (views, false)
    ensures src != [] && UserView(views, Va(root, va / PGSIZE)) ==>
      var n := Chunk(va, |src|);
      SpecCopyout(views, root, va, src) ==
        SpecCopyout(SpecWrite(views, Va(root, va / PGSIZE), va % PGSIZE, src[..n]), root, NextPage(va), src[n..])
  {
    hide SpecWrite, Chunk, NextPage;
  }

  lemma SameRanges(views: Views, w: Views, root: nat, va: nat, n: nat, len: nat)
    requires n <= len && UserRange(views, root, va, n) && UserRange(w, root, va + n, len - n)
    requires forall b :: UserView(w, b) <==> UserView(views, b)
    ensures UserRange(views, root, va, len)
  {
    forall v: nat | va <= v < va + len ensures UserView(views, Va(root, v / PGSIZE)) { assert v >= va + n ==> UserView(w, Va(root, v / PGSIZE)); }
  }

  lemma SameUsers(views: Views, w: Views, root: nat, va: nat, src: seq<Byte>)
    requires Copied(views, w, root, va, src)
    ensures forall b :: UserView(w, b) <==> UserView(views, b)
  {
  }

  /** It succeeds exactly when all the pages are user pages, and then all bytes are where they should be. */
  lemma CopyoutMeans(views: Views, root: nat, va: nat, src: seq<Byte>)
    ensures SpecCopyout(views, root, va, src).1 <==> UserRange(views, root, va, |src|)
    ensures SpecCopyout(views, root, va, src).1 ==> Copied(views, SpecCopyout(views, root, va, src).0, root, va, src)
  {
    var done := CopyoutBytes(views, root, va, src);
    hide Copied, SpecCopyout;
    if done < |src| { assert va <= va + done < va + |src|; } else { assert src[..done] == src; }
  }

  /** `copyin` succeeds exactly when all the pages are user pages, and byte i of what it reads is the one at `va + i`. */
  lemma {:induction false} CopyinMeans(views: Views, root: nat, va: nat, len: nat)
    ensures SpecCopyin(views, root, va, len).Some? <==> UserRange(views, root, va, len)
    ensures SpecCopyin(views, root, va, len).Some? ==> Read(views, root, va, len, SpecCopyin(views, root, va, len).value)
    decreases len
  {
    var a, n := Va(root, va / PGSIZE), Chunk(va, len);
    CopyinStep(views, root, va, len);
    if len > 0 {
      ChunkEnd(va, len, n);
      if UserRange(views, root, va, len) { RangeFirst(views, root, va, len); }
      if UserView(views, a) {
        RangeSplit(views, root, va, n, len);
        RangeNone(views, root, NextPage(va));
        hide Chunk, NextPage, UserRange, UserView, Read, SpecCopyin;
        CopyinMeans(views, root, NextPage(va), len - n);
        var rest := SpecCopyin(views, root, NextPage(va), len - n);
        if n == len { RangeNone(views, root, va + n); CopyinStep(views, root, NextPage(va), 0); }
        if rest.Some? { ReadLength(views, root, NextPage(va), len - n, rest.value); CopyinJoin(views, root, va, len, n, rest.value); }
      }
    }
  }

  lemma ReadAt(views: Views, root: nat, va: nat, len: nat, r: seq<Byte>, i: nat)
    requires Read(views, root, va, len, r) && i < len
    ensures Holds(views, root, va + i, r[i])
  {
  }

  lemma ReadLength(views: Views, root: nat, va: nat, len: nat, r: seq<Byte>)
    requires Read(views, root, va, len, r)
    ensures |r| == len
  {
  }

  lemma CopyinStep(views: Views, root: nat, va: nat, len: nat)
    ensures len == 0 ==> SpecCopyin(views, root, va, len) == Some([]) && UserRange(views, root, va, len) && Read(views, root, va, len, [])
    ensures len > 0 && !UserView(views, Va(root, va / PGSIZE)) ==> SpecCopyin(views, root, va, len) == None
    ensures len > 0 && UserView(views, Va(root, va / PGSIZE)) ==>
      var n := Chunk(va, len);
      var rest := SpecCopyin(views, root, NextPage(va), len - n);
      SpecCopyin(views, root, va, len) ==
        if rest.None? then None else Some(views[Va(root, va / PGSIZE)].page[va % PGSIZE..va % PGSIZE + n] + rest.value)
  {
    hide Chunk, NextPage;
  }

  lemma RangeFirst(views: Views, root: nat, va: nat, len: nat)
    requires len > 0 && UserRange(views, root, va, len)
    ensures UserView(views, Va(root, va / PGSIZE))
  {
  }

  lemma RangeNone(views: Views, root: nat, va: nat)
    ensures UserRange(views, root, va, 0)
  {
  }

  lemma RangeSplit(views: Views, root: nat, va: nat, n: nat, len: nat)
    requires n <= len && UserView(views, Va(root, va / PGSIZE)) && va % PGSIZE + n <= PGSIZE
    ensures UserRange(views, root, va, len) <==> UserRange(views, root, va + n, len - n)
  {
    forall v: nat | va <= v < va + n ensures UserView(views, Va(root, v / PGSIZE)) { InPage(va, n, v); }
  }

  lemma CopyinJoin(views: Views, root: nat, va: nat, len: nat, n: nat, rest: seq<Byte>)
    requires 0 < n <= len && va % PGSIZE + n <= PGSIZE && UserView(views, Va(root, va / PGSIZE)) && |rest| == len - n
    requires n < len ==> Read(views, root, va + n, len - n, rest)
    ensures Read(views, root, va, len, views[Va(root, va / PGSIZE)].page[va % PGSIZE..va % PGSIZE + n] + rest)
  {
    var page := views[Va(root, va / PGSIZE)].page;
    var r := page[va % PGSIZE..va % PGSIZE + n] + rest;
    forall i: nat | i < len ensures Holds(views, root, va + i, r[i]) {
      if i < n {
        InPage(va, n, va + i);
      } else {
        ReadAt(views, root, va + n, len - n, rest, i - n);
        assert va + n + (i - n) == va + i && r[i] == rest[i - n];
      }
    }
  }

  /** The pages touched are those from that of the first byte to that of the last. */
  lemma {:induction false} PagesTouchedIs(va: nat, len: nat)
    ensures PagesTouched(va, len) == if len == 0 then 0 else (va + len - 1) / PGSIZE - va / PGSIZE + 1
    decreases len
  {
    if len > 0 {
      ChunkEnd(va, len, Chunk(va, len));
      PagesTouchedIs(NextPage(va), len - Chunk(va, len));
      NextPageIs(va);
    }
  }

  /** The machine's `copyout`, whatever memory there is: when it succeeds, and what it does when no page goes wrong for lack of it. */
  lemma CopyoutAllMeans(s: State, root: nat, va: nat, src: seq<Byte>)
    requires Inv(s)
    ensures CopyoutAll(s, root, va, src).1 <==> UserRange(ViewOf(s), root, va, |src|)
    ensures NeverShort(s, root, va, src) && CopyoutAll(s, root, va, src).1 ==>
      Inv(CopyoutAll(s, root, va, src).0) && Copied(ViewOf(s), ViewOf(CopyoutAll(s, root, va, src).0), root, va, src)
  {
    CopyoutUsers(s, ViewOf(s), root, va, src);
    CopyoutMeans(ViewOf(s), root, va, src);
    if NeverShort(s, root, va, src) { CopyoutRefines(s, root, va, src); }
    hide Copied, CopyoutAll, SpecCopyout, NeverShort, ViewOf, Inv;
  }

  /** Whether it succeeds depends on the user pages alone. */
  lemma {:induction false} CopyoutUsers(s: State, views: Views, root: nat, va: nat, src: seq<Byte>)
    requires Inv(s) && forall b :: UserPage(s, b) <==> UserView(views, b)
    ensures CopyoutAll(s, root, va, src).1 == SpecCopyout(views, root, va, src).1
    decreases |src|
  {
    var a, n := Va(root, va / PGSIZE), Chunk(va, |src|);
    if src != [] && UserPage(s, a) {
      CopyoutPages(s, a, va % PGSIZE, src[..n]);
      hide Inv, Copyout;
      CopyoutUsers(Copyout(s, a, va % PGSIZE, src[..n]), SpecWrite(views, a, va % PGSIZE, src[..n]), root, NextPage(va), src[n..]);
    }
  }

  /** The machine's `copyin`: when it succeeds, and what it reads. */
  lemma CopyinAllMeans(s: State, root: nat, va: nat, len: nat)
    requires Backed(s)
    ensures CopyinAll(s, root, va, len).Some? <==> UserRange(ViewOf(s), root, va, len)
    ensures CopyinAll(s, root, va, len).Some? ==> Read(ViewOf(s), root, va, len, CopyinAll(s, root, va, len).value)
  {
    CopyinRefines(s, root, va, len);
    CopyinMeans(ViewOf(s), root, va, len);
    hide CopyinAll, SpecCopyin, ViewOf, Backed;
  }

  /** `r` is what the space holds from `va` on. */
  ghost predicate Read(views: Views, root: nat, va: nat, len: nat, r: seq<Byte>) {
    |r| == len && forall i: nat :: i < len ==> Holds(views, root, va + i, r[i])
  }

  /** `b` is the byte at address `v` of a space. */
  ghost predicate Holds(views: Views, root: nat, v: nat, b: Byte) {
    Va(root, v / PGSIZE) in views && b == ByteAt(views, root, v)
  }
}
