/** log.c over the buffer cache. */
module Log {
  import opened Basics
  import opened Words
  import opened Bio
  import opened LogSpec

  ghost predicate Quiet(bufs: seq<Buf>)
  {
    forall i | 0 <= i < |bufs| :: bufs[i].holder.None?
  }

  /** Buffers are held by readers only, of home blocks that are not listed. */
  ghost predicate Calm(bufs: seq<Buf>, disk: Disk, l: Layout, lh: seq<word>)
  {
    forall i | 0 <= i < |bufs| && bufs[i].holder.Some? ::
      && bufs[i].dev == ROOTDEV && !bufs[i].dirty && Home(l, bufs[i].blockno) && bufs[i].blockno !in lh
      && (bufs[i].valid ==> bufs[i].blockno < |disk| && bufs[i].data == disk[bufs[i].blockno])
  }

  /** Nobody holds the block's buffer. */
  ghost predicate Free(bufs: seq<Buf>, b: nat)
  {
    forall i | 0 <= i < |bufs| && Same(bufs[i], ROOTDEV, b) :: bufs[i].holder.None?
  }

  lemma CalmFree(bufs: seq<Buf>, disk: Disk, l: Layout, lh: seq<word>, b: nat)
    requires Calm(bufs, disk, l, lh) && (!Home(l, b) || b in lh)
    ensures Free(bufs, b)
  {
  }

  lemma QuietCalm(bufs: seq<Buf>, disk: Disk, l: Layout, lh: seq<word>)
    requires Quiet(bufs)
    ensures Calm(bufs, disk, l, lh)
  {
  }

  /** Every buffer waiting to be written belongs to a block in s. */
  ghost predicate DirtyOnly(bufs: seq<Buf>, s: set<nat>)
  {
    forall i | 0 <= i < |bufs| && bufs[i].dirty :: bufs[i].blockno in s
  }

  ghost function Listed(lh: seq<word>): set<nat>
  {
    set b: nat | b in lh
  }

  // ---- buffers to work with ----

  /** The block is in a buffer that waits to be written. */
  ghost predicate Awaits(bufs: seq<Buf>, b: nat)
  {
    exists i :: Caches(bufs, i, b) && bufs[i].dirty
  }

  /** From entry k on the listed blocks are pinned in the cache. */
  ghost predicate Kept(bufs: seq<Buf>, lh: seq<word>, k: nat)
  {
    forall i | k <= i < |lh| :: Awaits(bufs, lh[i])
  }

  ghost predicate Unreferenced(bufs: seq<Buf>)
  {
    forall i | 0 <= i < |bufs| :: bufs[i].refcnt == 0
  }

  ghost predicate Spare(bufs: seq<Buf>)
  {
    exists i, j | 0 <= i < j < |bufs| :: !Pinned(bufs[i]) && !Pinned(bufs[j])
  }

  /** The header and the first n log blocks have a buffer or can get one. */
  ghost predicate HasLog(bufs: seq<Buf>, l: Layout, n: nat)
  {
    forall b: nat | l.start <= b <= l.start + n :: !NoBuffer(bufs, ROOTDEV, b)
  }

  /** Two buffers to recycle, or the log's blocks and the listed ones find theirs. */
  ghost predicate Enough(bufs: seq<Buf>, l: Layout, lh: seq<word>, k: nat)
  {
    Spare(bufs) || (HasLog(bufs, l, |lh|) && Distinct(lh) && Kept(bufs, lh, k))
  }

  /** No buffer gets pinned or is taken from its pinned block, and none but dst's is written out. */
  ghost predicate Loosens(was: seq<Buf>, now: seq<Buf>, dst: nat)
  {
    && KeepsIdentity(was, now)
    && (forall j | 0 <= j < |was| && !Pinned(was[j]) :: !Pinned(now[j]))
    && (forall j, b | Caches(was, j, b) && was[j].dirty && b != dst :: Caches(now, j, b) && now[j].dirty)
  }

  /** Pinned buffers stay pinned, for the same blocks. */
  ghost predicate Holds(was: seq<Buf>, now: seq<Buf>)
  {
    KeepsIdentity(was, now) && forall j | 0 <= j < |was| && Pinned(was[j]) :: Pinned(now[j])
  }

  lemma StillLoose(was: seq<Buf>, now: seq<Buf>, dst: nat, b: nat)
    requires Loosens(was, now, dst)
    ensures !NoBuffer(was, ROOTDEV, b) ==> !NoBuffer(now, ROOTDEV, b)
    ensures Spare(was) ==> Spare(now)
  {
    if j :| 0 <= j < |was| && !Pinned(was[j]) {
      assert !Pinned(now[j]);
    } else if j :| 0 <= j < |was| && Same(was[j], ROOTDEV, b) {
      assert Pinned(was[j]) && Same(now[j], ROOTDEV, b);
    }
    if Spare(was) {
      var i, j :| 0 <= i < j < |was| && !Pinned(was[i]) && !Pinned(was[j]);
      assert !Pinned(now[i]) && !Pinned(now[j]);
    }
  }

  lemma StillNone(was: seq<Buf>, now: seq<Buf>, b: nat)
    requires Holds(was, now) && NoBuffer(was, ROOTDEV, b)
    ensures NoBuffer(now, ROOTDEV, b)
  {
    forall j | 0 <= j < |now| ensures Pinned(now[j]) && !Same(now[j], ROOTDEV, b) {
      assert Pinned(was[j]) && !Same(was[j], ROOTDEV, b);
    }
  }

  /** The same blocks find buffers. */
  ghost predicate AsAvailable(was: seq<Buf>, now: seq<Buf>)
  {
    forall b: nat :: NoBuffer(now, ROOTDEV, b) <==> NoBuffer(was, ROOTDEV, b)
  }

  lemma Available(was: seq<Buf>, now: seq<Buf>, dst: nat)
    requires Loosens(was, now, dst) && Holds(was, now)
    ensures AsAvailable(was, now)
  {
    forall b: nat ensures NoBuffer(now, ROOTDEV, b) <==> NoBuffer(was, ROOTDEV, b) {
      StillLoose(was, now, dst, b);
      if NoBuffer(was, ROOTDEV, b) { StillNone(was, now, b); }
    }
  }

  lemma Suffices(bufs: seq<Buf>, l: Layout, lh: seq<word>, k: nat, j: nat)
    requires j <= |lh|
    ensures Spare(bufs) ==> Enough(bufs, l, lh, k)
    ensures Enough(bufs, l, lh, k) ==> !NoBuffer(bufs, ROOTDEV, l.start + j)
    ensures Enough(bufs, l, lh, k) && k < |lh| ==> Spare(bufs) || Awaits(bufs, lh[k])
  {
  }

  lemma StillKept(was: seq<Buf>, now: seq<Buf>, dst: nat, lh: seq<word>, k: nat)
    requires Loosens(was, now, dst) && Kept(was, lh, k) && forall i | k <= i < |lh| :: lh[i] != dst
    ensures Kept(now, lh, k)
  {
    forall i | k <= i < |lh| ensures Awaits(now, lh[i]) {
      assert Awaits(was, lh[i]);
      var j :| Caches(was, j, lh[i]) && was[j].dirty;
      assert Caches(now, j, lh[i]) && now[j].dirty;
    }
  }

  lemma StillEnough(was: seq<Buf>, now: seq<Buf>, dst: nat, l: Layout, lh: seq<word>, k: nat, k': nat)
    requires Loosens(was, now, dst) && Enough(was, l, lh, k) && k <= k'
    requires Distinct(lh) ==> forall i | k' <= i < |lh| :: lh[i] != dst
    ensures Enough(now, l, lh, k')
  {
    StillLoose(was, now, dst, 0);
    if HasLog(was, l, |lh|) && Distinct(lh) && Kept(was, lh, k) {
      StillKept(was, now, dst, lh, k');
      forall b: nat | l.start <= b <= l.start + |lh| ensures !NoBuffer(now, ROOTDEV, b) {
        StillLoose(was, now, dst, b);
      }
    }
  }

  /** No buffer is referenced, and the blocks still to install are in the cache. */
  ghost predicate Installing(bufs: seq<Buf>, lh: seq<word>, k: nat)
  {
    Unreferenced(bufs) && Distinct(lh) && Kept(bufs, lh, k)
  }

  lemma InstallStart(bufs: seq<Buf>, lh: seq<word>, k: nat)
    ensures Installing(bufs, lh, k) ==> Unreferenced(bufs) && (k < |lh| ==> Awaits(bufs, lh[k]))
    ensures !AllPinned(bufs) ==> forall b: nat :: !NoBuffer(bufs, ROOTDEV, b)
  {
  }

  lemma InstallStep(was: seq<Buf>, now: seq<Buf>, lh: seq<word>, k: nat)
    requires k < |lh| && Installing(was, lh, k) && Loosens(was, now, lh[k]) && Unreferenced(now)
    ensures Installing(now, lh, k + 1)
  {
    StillKept(was, now, lh[k], lh, k + 1);
  }

  /** At boot nothing is pinned. */
  lemma AtBoot(bufs: seq<Buf>, b: nat)
    requires DirtyOnly(bufs, {})
    ensures Unreferenced(bufs) ==> (Spare(bufs) <==> |bufs| >= 2) && (NoBuffer(bufs, ROOTDEV, b) <==> |bufs| == 0)
    ensures Spare(bufs) ==> !NoBuffer(bufs, ROOTDEV, b)
  {
    if Unreferenced(bufs) && |bufs| > 0 {
      assert !Pinned(bufs[0]);
      if |bufs| >= 2 { assert !Pinned(bufs[1]); }
    }
  }

  lemma StillEnoughAtBoot(was: seq<Buf>, now: seq<Buf>, l: Layout, lh: seq<word>)
    requires Loosens(was, now, l.start) && !NoBuffer(was, ROOTDEV, l.start)
    ensures |now| == |was| && (Spare(was) || lh == [] ==> Enough(now, l, lh, 0))
  {
    StillLoose(was, now, l.start, l.start);
  }

  /** A block in the cache or a buffer to spare: bread gets a second buffer. */
  lemma SecondRead(was: seq<Buf>, now: seq<Buf>, r: nat, b: nat, home: nat)
    requires Reads(was, now, r, b)
    ensures Spare(was) || Awaits(was, home) ==> !NoBuffer(now, ROOTDEV, home)
  {
    if Spare(was) {
      var i, j :| 0 <= i < j < |was| && !Pinned(was[i]) && !Pinned(was[j]);
      assert (i != r && now[i] == was[i]) || (j != r && now[j] == was[j]);
    } else if Awaits(was, home) {
      var i :| Caches(was, i, home) && was[i].dirty;
      assert Same(now[i], ROOTDEV, home);
    }
  }

  lemma ReadKeeps(was: seq<Buf>, now: seq<Buf>, r: nat, b: nat, lh: seq<word>)
    requires Reads(was, now, r, b) && now[r].valid && Kept(was, lh, 0)
    ensures Kept(now, lh, 0)
  {
    forall k | 0 <= k < |lh| ensures Awaits(now, lh[k]) {
      assert Awaits(was, lh[k]);
      var i :| Caches(was, i, lh[k]) && was[i].dirty;
      assert Caches(now, i, lh[k]) && now[i].dirty;
    }
  }

  lemma PinKeeps(was: seq<Buf>, now: seq<Buf>, b: nat, lh: seq<word>, lh': seq<word>)
    requires b < |was| == |now| && now == was[b := now[b]] && now[b].dirty && Caches(now, b, was[b].blockno)
    requires was[b].dev == ROOTDEV
    requires Kept(was, lh, 0) && forall k | 0 <= k < |lh'| :: lh'[k] in lh || lh'[k] == was[b].blockno
    ensures Kept(now, lh', 0)
  {
    forall k | 0 <= k < |lh'| ensures Awaits(now, lh'[k]) {
      if lh'[k] == was[b].blockno {
        assert Caches(now, b, lh'[k]) && now[b].dirty;
      } else {
        var m :| 0 <= m < |lh| && lh[m] == lh'[k];
        assert Awaits(was, lh[m]);
        var i :| Caches(was, i, lh[m]) && was[i].dirty;
        assert Caches(now, i, lh'[k]) && now[i].dirty;
      }
    }
  }

  lemma CopyLoosens(b0: seq<Buf>, b1: seq<Buf>, b2: seq<Buf>, b3: seq<Buf>, p: nat, q: nat, pb: nat, qb: nat, dst: nat)
    requires Reads(b0, b1, p, pb) && Reads(b1, b2, q, qb) && p != q && p < |b2| && b2[p].valid && b2[q].valid
    requires dst == p || dst == q
    requires |b3| == |b2| && b3 == b2[p := b3[p]][q := b3[q]]
    requires b3[p] == b2[p].(data := b3[p].data, holder := None, refcnt := b2[p].refcnt - 1,
                             dirty := b2[p].dirty && dst != p)
    requires b3[q] == b2[q].(data := b3[q].data, holder := None, refcnt := b2[q].refcnt - 1,
                             dirty := b2[q].dirty && dst != q)
    ensures Loosens(b0, b3, b2[dst].blockno)
    ensures !b2[dst].dirty ==> Holds(b0, b3)
    ensures Unreferenced(b0) ==> Unreferenced(b3) && !AllPinned(b3)
  {
    if Unreferenced(b0) { assert !Pinned(b3[dst]); }
  }

  /** Readers go on: their blocks are not touched. */
  lemma CopyCalm(b0: seq<Buf>, b1: seq<Buf>, b2: seq<Buf>, b3: seq<Buf>, p: nat, q: nat, pb: nat, qb: nat,
                 disk: Disk, disk': Disk, to: nat, l: Layout, lh: seq<word>)
    requires Reads(b0, b1, p, pb) && Reads(b1, b2, q, qb) && p < |b2| == |b3| && b3 == b2[p := b3[p]][q := b3[q]]
    requires b3[p].holder.None? && b3[q].holder.None?
    requires Calm(b0, disk, l, lh) && !Home(l, pb) && qb in lh && (to == pb || to == qb)
    requires |disk'| == |disk| && forall b: nat | b < |disk| && b != to :: disk'[b] == disk[b]
    ensures Calm(b3, disk', l, lh)
  {
    forall i | 0 <= i < |b3| && b3[i].holder.Some? ensures b3[i] == b0[i] { assert i != p && i != q; }
  }

  lemma StoreLoosens(b0: seq<Buf>, b1: seq<Buf>, b2: seq<Buf>, p: nat, pb: nat)
    requires Reads(b0, b1, p, pb) && b1[p].valid && |b2| == |b1|
    requires b2 == b1[p := b1[p].(data := b2[p].data, holder := None, refcnt := b1[p].refcnt - 1, dirty := false)]
    ensures Loosens(b0, b2, pb)
    ensures !b1[p].dirty ==> Holds(b0, b2)
  {
  }

  lemma StoreCalm(b0: seq<Buf>, b1: seq<Buf>, b2: seq<Buf>, p: nat, pb: nat, disk: Disk, disk': Disk, l: Layout,
                  lh: seq<word>)
    requires Reads(b0, b1, p, pb) && |b2| == |b1| && b2 == b1[p := b2[p]] && b2[p].holder.None?
    requires Calm(b0, disk, l, lh) && !Home(l, pb)
    requires |disk'| == |disk| && forall b: nat | b < |disk| && b != pb :: disk'[b] == disk[b]
    ensures Calm(b2, disk', l, lh)
  {
    forall i | 0 <= i < |b2| && b2[i].holder.Some? ensures b2[i] == b0[i] { assert i != p; }
  }

  /** Distinct listed blocks in pinned buffers: with no buffer referenced, one is free exactly if
      there are more buffers than blocks. */
  lemma CountBuffers(bufs: seq<Buf>, lh: seq<word>, disk: seq<Block>)
    requires Unique(bufs) && (forall i | 0 <= i < |bufs| :: BufOk(bufs[i], disk))
    requires Unreferenced(bufs) && DirtyOnly(bufs, Listed(lh)) && Distinct(lh) && Kept(bufs, lh, 0)
    ensures AllPinned(bufs) <==> |lh| >= |bufs|
  {
    if AllPinned(bufs) {
      var at := seq(|bufs|, i requires 0 <= i < |bufs| => bufs[i].blockno);
      forall i, j | 0 <= i < j < |at| ensures at[i] != at[j] {
        assert Pinned(bufs[i]) && Pinned(bufs[j]);
        assert At(bufs, i, ROOTDEV, at[i]) && At(bufs, j, ROOTDEV, at[j]);
      }
      forall i | 0 <= i < |at| ensures at[i] in Listed(lh) { assert Pinned(bufs[i]); }
      Pigeonhole(at, Listed(lh));
      ListedSize(lh);
    } else {
      var free :| 0 <= free < |bufs| && !Pinned(bufs[free]);
      var at := Places(bufs, lh);
      forall i, j | 0 <= i < j < |at| ensures at[i] != at[j] {
        assert Caches(bufs, at[i], lh[i]) && Caches(bufs, at[j], lh[j]);
      }
      forall i | 0 <= i < |at| ensures at[i] in Range(0, |bufs|) - {free} { assert Caches(bufs, at[i], lh[i]); }
      Pigeonhole(at, Range(0, |bufs|) - {free});
    }
  }

  lemma {:induction false} ListedSize(lh: seq<word>)
    ensures |Listed(lh)| <= |lh|
  {
    if lh != [] {
      ListedSize(lh[1..]);
      assert Listed(lh) == Listed(lh[1..]) + {lh[0]};
    }
  }

  /** Where the listed blocks are in the cache. */
  ghost function Places(bufs: seq<Buf>, lh: seq<word>): (r: seq<int>)
    requires Kept(bufs, lh, 0)
    ensures |r| == |lh| && forall i | 0 <= i < |lh| :: Caches(bufs, r[i], lh[i]) && bufs[r[i]].dirty
  {
    if lh == [] then []
    else
      assert Awaits(bufs, lh[0]);
      assert forall i | 0 <= i < |lh[1..]| :: lh[1..][i] == lh[i + 1];
      var i :| Caches(bufs, i, lh[0]) && bufs[i].dirty;
      [i] + Places(bufs, lh[1..])
  }

  lemma UpdateCalm(b0: seq<Buf>, b1: seq<Buf>, b2: seq<Buf>, p: nat, pb: nat, disk: Disk, l: Layout, lh: seq<word>,
                   lh': seq<word>)
    requires Reads(b0, b1, p, pb) && |b2| == |b1| && b2 == b1[p := b2[p]] && b2[p].holder.None?
    requires Calm(b0, disk, l, lh) && Free(b0, pb) && (lh' == lh || (pb < TWO32 && lh' == lh + [pb]))
    ensures Calm(b2, disk, l, lh')
  {
    forall i | 0 <= i < |b2| && b2[i].holder.Some? ensures b2[i] == b0[i] && b2[i].blockno != pb {
      assert i != p;
      assert !Same(b0[i], ROOTDEV, pb);
    }
  }

  class Log {
    const cache: BufferCache
    const l: Layout
    var lh: seq<word>

    /** What holds whenever no commit runs. */
    ghost predicate Open()
      reads this, cache
    {
      && cache.Valid() && DirtyOnly(cache.bufs, Listed(lh))
      && Loggable(l, cache.disk, lh) && Distinct(lh) && Kept(cache.bufs, lh, 0)
      && Recoverable(l, cache.disk) && Head(cache.disk[l.start]) == []
      && |cache.disk| <= TWO32
    }

    /** The same when no operation holds a buffer: only readers do. */
    ghost predicate Ready()
      reads this, cache
    {
      Open() && Calm(cache.bufs, cache.disk, l, lh)
    }

    constructor (cache: BufferCache, l: Layout)
      ensures this.cache == cache && this.l == l && lh == []
    {
      this.cache, this.l, lh := cache, l, [];
    }

    /** A block that is not waiting to be written is the same in cache and on disk. */
    lemma CleanView(s: set<nat>, b: nat)
      requires cache.Valid() && Calm(cache.bufs, cache.disk, l, lh) && DirtyOnly(cache.bufs, s)
      requires b < |cache.disk| && b !in s
      ensures cache.view[b] == cache.disk[b]
    {
      if Cached(cache.bufs, b) {
        var i :| Caches(cache.bufs, i, b);
        assert BufOk(cache.bufs[i], cache.disk);
      }
    }

    lemma ViewSize()
      requires cache.Valid()
      ensures |cache.view| == |cache.disk|
    {
    }

    lemma OnRoot(b: nat)
      requires cache.Valid() && b < |cache.bufs| && cache.bufs[b].valid
      ensures cache.bufs[b].dev == ROOTDEV && cache.bufs[b].blockno < |cache.disk|
    {
      assert BufOk(cache.bufs[b], cache.disk);
    }

    lemma AllClean()
      requires cache.Valid() && Calm(cache.bufs, cache.disk, l, lh) && DirtyOnly(cache.bufs, {})
      ensures cache.view == cache.disk
    {
      forall b: nat | b < |cache.disk| ensures cache.view[b] == cache.disk[b] { CleanView({}, b); }
    }

    /** Overwrite a locked buffer and write it out. */
    method Store(b: nat, data: Block, ghost s: set<nat>)
      requires cache.Valid() && DirtyOnly(cache.bufs, s)
      requires b < |cache.bufs| && cache.bufs[b].holder == Some(0) && cache.bufs[b].valid
      modifies cache`bufs, cache`disk, cache`images, cache`view
      ensures cache.Valid() && DirtyOnly(cache.bufs, s - {cache.bufs[b].blockno})
      ensures cache.bufs == old(cache.bufs)[b := old(cache.bufs)[b].(data := data, dirty := false)]
      ensures cache.disk == old(cache.disk)[cache.bufs[b].blockno := data]
      ensures cache.images == old(cache.images) + [cache.disk]
      ensures cache.view == old(cache.view)[cache.bufs[b].blockno := data]
    {
      cache.SetData(b, 0, data);
      cache.Bwrite(b, 0);
      forall i | 0 <= i < |cache.bufs| && cache.bufs[i].dirty ensures cache.bufs[i].blockno != cache.bufs[b].blockno {
        if cache.bufs[i].blockno == cache.bufs[b].blockno { cache.OneBuffer(i, b); }
      }
    }

    /** Copy one locked buffer over another, write that one out, release both. */
    method CopyOut(src: nat, dst: nat, ghost s: set<nat>)
      requires cache.Valid() && DirtyOnly(cache.bufs, s)
      requires src < |cache.bufs| && dst < |cache.bufs| && src != dst
      requires cache.bufs[src].holder == Some(0) == cache.bufs[dst].holder
      requires cache.bufs[src].valid && cache.bufs[dst].valid
      requires !cache.bufs[src].dirty ==> cache.bufs[src].data == cache.disk[cache.bufs[src].blockno]
      modifies cache
      ensures cache.Valid()
      ensures
        var to := old(cache.bufs)[dst].blockno;
        var data := old(cache.bufs)[src].data;
        && DirtyOnly(cache.bufs, s - {to})
        && cache.disk == old(cache.disk)[to := data]
        && cache.images == old(cache.images) + [cache.disk]
        && cache.view == old(cache.view)[to := data]
      ensures
        var s, d := old(cache.bufs)[src], old(cache.bufs)[dst];
        cache.bufs == old(cache.bufs)[src := s.(holder := None, refcnt := s.refcnt - 1)]
                                     [dst := d.(data := s.data, dirty := false, holder := None, refcnt := d.refcnt - 1)]
    {
      hide BufferCache.Valid;
      OnRoot(src);
      OnRoot(dst);
      if cache.bufs[src].blockno == cache.bufs[dst].blockno { cache.OneBuffer(src, dst); }
      Store(dst, cache.bufs[src].data, s);
      cache.Brelse(src, 0);
      cache.Brelse(dst, 0);
    }

    /** bread of two blocks. */
    method ReadTwo(a: nat, b: nat, ghost s: set<nat>) returns (ok: bool, p: nat, q: nat, ghost mid: seq<Buf>)
      requires cache.Valid() && DirtyOnly(cache.bufs, s) && Free(cache.bufs, a) && Free(cache.bufs, b)
      requires a < |cache.disk| && b < |cache.disk| && a != b
      modifies cache
      ensures cache.disk == old(cache.disk) && cache.images == old(cache.images) && cache.view == old(cache.view)
      ensures !ok ==> AllPinned(cache.bufs)
      ensures !NoBuffer(old(cache.bufs), ROOTDEV, a) && (Spare(old(cache.bufs)) || Awaits(old(cache.bufs), b)) ==> ok
      ensures NoBuffer(old(cache.bufs), ROOTDEV, a) ==> !ok
      ensures ok ==>
        && Reads(old(cache.bufs), mid, p, a) && Reads(mid, cache.bufs, q, b) && p != q && p < |cache.bufs|
        && cache.Valid() && DirtyOnly(cache.bufs, s)
        && cache.bufs[p].holder == Some(0) == cache.bufs[q].holder
        && cache.bufs[p].valid && cache.bufs[p].data == cache.view[a] && cache.bufs[p].blockno == a
        && cache.bufs[q].valid && cache.bufs[q].data == cache.view[b] && cache.bufs[q].blockno == b
        && (!cache.bufs[p].dirty ==> cache.bufs[p].data == cache.disk[a])
        && (!cache.bufs[q].dirty ==> cache.bufs[q].data == cache.disk[b])
    {
      ok, p, q, mid := false, 0, 0, cache.bufs;
      var r, waits := cache.Bread(0, a);
      if r.None? { return; }
      p, mid := r.value, cache.bufs;
      SecondRead(old(cache.bufs), mid, p, a, b);
      r, waits := cache.Bread(0, b);
      if r.None? { return; }
      ok, q := true, r.value;
    }

    lemma NotDirty(bufs: seq<Buf>, s: set<nat>, b: nat)
      requires DirtyOnly(bufs, s) && b < |bufs| && bufs[b].dirty
      ensures bufs[b].blockno in s
    {
    }

    /** Body of the loops of write_log and install_trans: copy between a log block and
        a home block, through the cache, with one disk write. */
    method Transfer(logBlock: nat, home: nat, toLog: bool, ghost s: set<nat>) returns (ok: bool)
      requires cache.Valid() && Calm(cache.bufs, cache.disk, l, lh) && DirtyOnly(cache.bufs, s)
      requires logBlock < |cache.disk| && home < |cache.disk| && logBlock != home
      requires !Home(l, logBlock) && home in lh
      modifies cache
      ensures !ok ==> cache.disk == old(cache.disk) && cache.images == old(cache.images) && AllPinned(cache.bufs)
      ensures !NoBuffer(old(cache.bufs), ROOTDEV, logBlock) && (Spare(old(cache.bufs)) || Awaits(old(cache.bufs), home))
        ==> ok
      ensures NoBuffer(old(cache.bufs), ROOTDEV, logBlock) ==> !ok
      ensures ok ==> |cache.bufs| == |old(cache.bufs)| >= 2
      ensures ok ==> Loosens(old(cache.bufs), cache.bufs, if toLog then logBlock else home)
      ensures ok && toLog && logBlock !in s ==> Holds(old(cache.bufs), cache.bufs)
      ensures ok && Unreferenced(old(cache.bufs)) ==> Unreferenced(cache.bufs) && !AllPinned(cache.bufs)
      ensures ok ==>
        var src := if toLog then home else logBlock;
        var dst := if toLog then logBlock else home;
        && cache.Valid() && Calm(cache.bufs, cache.disk, l, lh) && DirtyOnly(cache.bufs, s - {dst})
        && cache.disk == old(cache.disk)[dst := old(cache.view)[src]]
        && cache.images == old(cache.images) + [cache.disk]
        && cache.view == old(cache.view)[dst := old(cache.view)[src]]
    {
      hide BufferCache.Valid, Calm, Free, DirtyOnly, Spare, Awaits, AllPinned, NoBuffer, Loosens, Holds, Unreferenced;
      CalmFree(cache.bufs, cache.disk, l, lh, logBlock);
      CalmFree(cache.bufs, cache.disk, l, lh, home);
      var lb, hb;
      ghost var mid;
      ok, lb, hb, mid := ReadTwo(logBlock, home, s);
      if !ok { return; }
      ghost var bufs := cache.bufs;
      if bufs[lb].dirty { NotDirty(bufs, s, lb); }
      if toLog { CopyOut(hb, lb, s); } else { CopyOut(lb, hb, s); }
      CopyLoosens(old(cache.bufs), mid, bufs, cache.bufs, lb, hb, logBlock, home, if toLog then lb else hb);
      CopyCalm(old(cache.bufs), mid, bufs, cache.bufs, lb, hb, logBlock, home, old(cache.disk), cache.disk,
               if toLog then logBlock else home, l, lh);
    }

    lemma LogRoom(bufs: seq<Buf>, tail: nat)
      requires tail < |lh|
      ensures Enough(bufs, l, lh, 0) ==>
        !NoBuffer(bufs, ROOTDEV, l.start + tail + 1) && (Spare(bufs) || Awaits(bufs, lh[tail]))
      ensures Kept(bufs, lh, 0) ==> Awaits(bufs, lh[tail])
    {
      Suffices(bufs, l, lh, 0, tail + 1);
    }

    lemma LogRoomLeft(was: seq<Buf>, now: seq<Buf>, dst: nat)
      requires Loosens(was, now, dst) && Holds(was, now) && dst !in lh
      ensures AsAvailable(was, now)
      ensures Kept(was, lh, 0) ==> Kept(now, lh, 0)
      ensures Enough(was, l, lh, 0) ==> Enough(now, l, lh, 0)
    {
      Available(was, now, dst);
      if Kept(was, lh, 0) { StillKept(was, now, dst, lh, 0); }
      if Enough(was, l, lh, 0) { StillEnough(was, now, dst, l, lh, 0, 0); }
    }

    /** One turn of write_log. */
    method LogOne(tail: nat, ghost d: Disk, ghost v: Disk) returns (ok: bool)
      requires cache.Valid() && Calm(cache.bufs, cache.disk, l, lh) && DirtyOnly(cache.bufs, Listed(lh))
      requires Loggable(l, d, lh) && |v| == |d| && tail < |lh| && cache.disk == Logged(l, d, v, lh, tail)
      requires Agree(l, cache.view, v)
      modifies cache
      ensures !ok ==> cache.images == old(cache.images) && AllPinned(cache.bufs)
      ensures Enough(old(cache.bufs), l, lh, 0) ==> ok && Enough(cache.bufs, l, lh, 0)
      ensures NoBuffer(old(cache.bufs), ROOTDEV, l.start + tail + 1) ==> !ok
      ensures Kept(old(cache.bufs), lh, 0) && !NoBuffer(old(cache.bufs), ROOTDEV, l.start + tail + 1) ==> ok
      ensures ok ==>
        AsAvailable(old(cache.bufs), cache.bufs) && (Kept(old(cache.bufs), lh, 0) ==> Kept(cache.bufs, lh, 0))
      ensures ok ==>
        && cache.Valid() && Calm(cache.bufs, cache.disk, l, lh) && DirtyOnly(cache.bufs, Listed(lh))
        && cache.disk == Logged(l, d, v, lh, tail + 1)
        && cache.images == old(cache.images) + [cache.disk]
        && Agree(l, cache.view, v)
    {
      assert Home(l, lh[tail]) && cache.view[lh[tail]] == v[lh[tail]];
      LogRoom(cache.bufs, tail);
      ok := Transfer(l.start + tail + 1, lh[tail], true, Listed(lh));
      if ok { LogRoomLeft(old(cache.bufs), cache.bufs, l.start + tail + 1); }
    }

    method WriteLog() returns (ok: bool)
      requires cache.Valid() && Calm(cache.bufs, cache.disk, l, lh) && DirtyOnly(cache.bufs, Listed(lh))
      requires Loggable(l, cache.disk, lh)
      modifies cache
      ensures CommitRan(cache.images, old(cache.images), l, old(cache.disk), old(cache.view), lh)
      ensures !ok ==> AllPinned(cache.bufs)
      ensures Enough(old(cache.bufs), l, lh, 0) ==> ok && Enough(cache.bufs, l, lh, 0)
      ensures Kept(old(cache.bufs), lh, 0) ==>
        (ok <==> forall b: nat | l.start < b <= l.start + |lh| :: !NoBuffer(old(cache.bufs), ROOTDEV, b))
      ensures ok ==> AsAvailable(old(cache.bufs), cache.bufs)
      ensures ok ==>
        && |cache.images| == |old(cache.images)| + |lh|
        && cache.Valid() && Calm(cache.bufs, cache.disk, l, lh) && DirtyOnly(cache.bufs, Listed(lh))
        && cache.disk == Logged(l, old(cache.disk), old(cache.view), lh, |lh|)
        && Agree(l, cache.view, old(cache.view))
    {
      hide BufferCache.Valid, CommitRan, Calm, DirtyOnly, Enough, AllPinned, NoBuffer, Logged, Agree, Loggable, Kept;
      ghost var d, v := cache.disk, cache.view;
      ViewSize();
      LoggedNone(l, d, v, lh);
      var tail := 0;
      CommitNone(cache.images, l, d, v, lh);
      while tail < |lh|
        invariant 0 <= tail <= |lh| && |cache.images| == |old(cache.images)| + tail
        invariant cache.Valid() && Calm(cache.bufs, cache.disk, l, lh) && DirtyOnly(cache.bufs, Listed(lh))
        invariant cache.disk == Logged(l, d, v, lh, tail)
        invariant CommitRan(cache.images, old(cache.images), l, d, v, lh)
        invariant Enough(old(cache.bufs), l, lh, 0) ==> Enough(cache.bufs, l, lh, 0)
        invariant AsAvailable(old(cache.bufs), cache.bufs)
        invariant Kept(old(cache.bufs), lh, 0) ==> Kept(cache.bufs, lh, 0)
        invariant forall b: nat | l.start < b <= l.start + tail :: !NoBuffer(old(cache.bufs), ROOTDEV, b)
        invariant Agree(l, cache.view, v)
      {
        ghost var sofar := cache.images;
        ok := LogOne(tail, d, v);
        if !ok { return; }
        CommitLogged(sofar, old(cache.images), l, d, v, lh, tail, cache.disk);
        tail := tail + 1;
      }
      return true;
    }

    lemma Differ(tail: nat)
      requires tail < |lh|
      ensures Distinct(lh) ==> forall i | tail < i < |lh| :: lh[i] != lh[tail]
    {
    }

    /** One turn of install_trans. */
    method InstallOne(tail: nat, ghost d: Disk, ghost s: set<nat>) returns (ok: bool)
      requires cache.Valid() && Calm(cache.bufs, cache.disk, l, lh) && DirtyOnly(cache.bufs, s)
      requires Loggable(l, d, lh) && tail < |lh| && cache.disk == Install(l, d, lh, tail)
      requires forall b | b in s :: Home(l, b)
      modifies cache
      ensures !ok ==> cache.images == old(cache.images) && AllPinned(cache.bufs)
      ensures Enough(old(cache.bufs), l, lh, tail) ==> ok && Enough(cache.bufs, l, lh, tail + 1)
      ensures ok ==> |cache.bufs| == |old(cache.bufs)| >= 2
      ensures Installing(old(cache.bufs), lh, tail) ==>
        && (ok <==> !NoBuffer(old(cache.bufs), ROOTDEV, l.start + tail + 1))
        && (ok ==> Installing(cache.bufs, lh, tail + 1) && !AllPinned(cache.bufs))
      ensures ok ==>
        && cache.Valid() && Calm(cache.bufs, cache.disk, l, lh) && DirtyOnly(cache.bufs, s - {lh[tail]})
        && cache.disk == Install(l, d, lh, tail + 1)
        && cache.images == old(cache.images) + [cache.disk]
    {
      hide BufferCache.Valid, Calm, DirtyOnly, Enough, Spare, Awaits, AllPinned, NoBuffer, Loosens, Distinct,
        Unreferenced, Installing;
      ViewSize();
      Differ(tail);
      InstallStart(cache.bufs, lh, tail);
      ghost var b := l.start + tail + 1;
      assert cache.view[b] == d[b] by {
        CleanView(s, b);
        LogNotListed(l, d, lh, tail, b);
        InstallKeepsLog(l, d, lh, tail, b);
      }
      Suffices(cache.bufs, l, lh, tail, tail + 1);
      ok := Transfer(l.start + tail + 1, lh[tail], false, s);
      if Enough(old(cache.bufs), l, lh, tail) {
        StillEnough(old(cache.bufs), cache.bufs, lh[tail], l, lh, tail, tail + 1);
      }
      if ok && Installing(old(cache.bufs), lh, tail) { InstallStep(old(cache.bufs), cache.bufs, lh, tail); }
    }

    method InstallTrans(ghost s: set<nat>) returns (ok: bool, ghost w: nat)
      requires cache.Valid() && Calm(cache.bufs, cache.disk, l, lh) && DirtyOnly(cache.bufs, s)
      requires Loggable(l, cache.disk, lh)
      requires forall b | b in s :: Home(l, b)
      modifies cache
      ensures w <= |lh| && cache.images == old(cache.images) + InstallImages(l, old(cache.disk), lh, w)
      ensures !ok ==> AllPinned(cache.bufs)
      ensures Enough(old(cache.bufs), l, lh, 0) ==> ok && Enough(cache.bufs, l, lh, |lh|)
      ensures ok && lh != [] ==> |old(cache.bufs)| >= 2
      ensures Installing(old(cache.bufs), lh, 0) ==>
        (ok <==> lh == [] || !NoBuffer(old(cache.bufs), ROOTDEV, l.start + 1))
      ensures ok ==>
        && w == |lh|
        && cache.Valid() && Calm(cache.bufs, cache.disk, l, lh) && DirtyOnly(cache.bufs, s - Listed(lh))
        && cache.disk == Install(l, old(cache.disk), lh, |lh|)
    {
      hide BufferCache.Valid, Calm, DirtyOnly, Enough, AllPinned, NoBuffer, Installing;
      ghost var d := cache.disk;
      var tail := 0;
      w := 0;
      assert s - Listed(lh[..0]) == s;
      while tail < |lh|
        invariant 0 <= tail == w <= |lh|
        invariant cache.Valid() && Calm(cache.bufs, cache.disk, l, lh) && DirtyOnly(cache.bufs, s - Listed(lh[..tail]))
        invariant cache.disk == Install(l, d, lh, tail)
        invariant cache.images == old(cache.images) + InstallImages(l, d, lh, tail)
        invariant Enough(old(cache.bufs), l, lh, 0) ==> Enough(cache.bufs, l, lh, tail)
        invariant |cache.bufs| == |old(cache.bufs)| && (tail > 0 ==> |old(cache.bufs)| >= 2)
        invariant Installing(old(cache.bufs), lh, 0) ==> Installing(cache.bufs, lh, tail)
        invariant if tail == 0 then cache.bufs == old(cache.bufs) else Installing(old(cache.bufs), lh, 0) ==>
            !AllPinned(cache.bufs) && !NoBuffer(old(cache.bufs), ROOTDEV, l.start + 1)
      {
        ghost var s' := s - Listed(lh[..tail]);
        InstallStart(cache.bufs, lh, tail);
        ok := InstallOne(tail, d, s');
        if !ok { return; }
        assert s - Listed(lh[..tail + 1]) == s' - {lh[tail]} by {
          assert lh[..tail + 1] == lh[..tail] + [lh[tail]];
        }
        tail := tail + 1;
        w := tail;
      }
      assert lh[..|lh|] == lh;
      return true, w;
    }

    /** write_head's changes to the header block. */
    method FillHead(b: Block) returns (hb: Block)
      requires |lh| <= LOGSIZE
      ensures hb == PutHead(b, lh)
    {
      hb := PutWord(b, 0, |lh|);
      var i := 0;
      while i < |lh|
        invariant 0 <= i <= |lh|
        invariant hb == PutEntries(b, lh, i)
      {
        hb := PutWord(hb, i + 1, lh[i]);
        i := i + 1;
      }
    }

    method WriteHead(ghost s: set<nat>) returns (ok: bool)
      requires cache.Valid() && Calm(cache.bufs, cache.disk, l, lh) && DirtyOnly(cache.bufs, s)
      requires Fits(l, cache.disk) && |lh| <= LOGSIZE && l.start !in s
      modifies cache
      ensures ok <==> !NoBuffer(old(cache.bufs), ROOTDEV, l.start)
      ensures !ok ==> cache.disk == old(cache.disk) && cache.images == old(cache.images) && AllPinned(cache.bufs)
      ensures ok ==> Loosens(old(cache.bufs), cache.bufs, l.start)
      ensures ok ==>
        && cache.Valid() && Calm(cache.bufs, cache.disk, l, lh) && DirtyOnly(cache.bufs, s)
        && cache.disk == old(cache.disk)[l.start := PutHead(old(cache.disk)[l.start], lh)]
        && cache.images == old(cache.images) + [cache.disk]
        && (forall b: nat | b < |cache.disk| && b != l.start :: cache.view[b] == old(cache.view)[b])
    {
      CleanView(s, l.start);
      CalmFree(cache.bufs, cache.disk, l, lh, l.start);
      var r, _ := cache.Bread(0, l.start);
      if r.None? { return false; }
      ghost var bufs := cache.bufs;
      var hb := FillHead(cache.bufs[r.value].data);
      Store(r.value, hb, s);
      cache.Brelse(r.value, 0);
      StoreLoosens(old(cache.bufs), bufs, cache.bufs, r.value, l.start);
      StoreCalm(old(cache.bufs), bufs, cache.bufs, r.value, l.start, old(cache.disk), cache.disk, l, lh);
      hide Loosens, NoBuffer, AllPinned, PutHead;
      return true;
    }

    lemma LogReady()
      requires cache.Valid() && Loggable(l, cache.disk, lh)
      ensures |cache.view| == |cache.disk| && l.start !in Listed(lh) && |lh| <= LOGSIZE
      ensures forall b | b in Listed(lh) :: Home(l, b)
      ensures Fits(l, Logged(l, cache.disk, cache.view, lh, |lh|))
      ensures Loggable(l, Committed(l, cache.disk, cache.view, lh), lh)
    {
    }

    /** commit() up to the installed transaction. */
    method LogAndInstall() returns (ok: bool)
      requires Ready()
      modifies cache
      ensures CommitRan(cache.images, old(cache.images), l, old(cache.disk), old(cache.view), lh)
      ensures !ok ==> AllPinned(cache.bufs)
      ensures Enough(old(cache.bufs), l, lh, 0) ==> ok && !NoBuffer(cache.bufs, ROOTDEV, l.start)
      ensures ok ==> HasLog(old(cache.bufs), l, |lh|)
      ensures ok ==>
        && |cache.images| == |old(cache.images)| + 2 * |lh| + 1
        && cache.Valid() && Calm(cache.bufs, cache.disk, l, lh) && DirtyOnly(cache.bufs, {})
        && cache.disk == Install(l, Committed(l, old(cache.disk), old(cache.view), lh), lh, |lh|)
    {
      hide BufferCache.Valid, Calm, DirtyOnly, Enough, AllPinned, NoBuffer, Loosens, Holds, Kept, Distinct;
      hide CommitRan, Logged, Loggable, Install, InstallImages, PutHead, Fits, Recoverable, Home;
      ghost var d, v, before := cache.disk, cache.view, cache.images;
      LogReady();
      ok := WriteLog();
      if !ok { return; }
      Suffices(cache.bufs, l, lh, 0, 0);
      ghost var sofar, bufs := cache.images, cache.bufs;
      ok := WriteHead(Listed(lh));
      if !ok { return; }
      if Enough(bufs, l, lh, 0) { StillEnough(bufs, cache.bufs, l.start, l, lh, 0, 0); }
      assert cache.disk == Committed(l, d, v, lh);
      CommitHead(sofar, before, l, d, v, lh, cache.disk);
      ghost var mid := cache.images;
      ghost var t;
      ok, t := InstallTrans(Listed(lh));
      Suffices(cache.bufs, l, lh, |lh|, 0);
      CommitTail(mid, before, l, d, v, lh, t);
      assert Listed(lh) - Listed(lh) == {};
    }

    /** `log.lh.n = 0; write_head()`, the end of both commit and recovery. */
    method Erase() returns (ok: bool)
      requires cache.Valid() && Calm(cache.bufs, cache.disk, l, lh) && DirtyOnly(cache.bufs, {})
      requires Fits(l, cache.disk) && |cache.disk| <= TWO32
      modifies this, cache
      ensures ok <==> !NoBuffer(old(cache.bufs), ROOTDEV, l.start)
      ensures !ok ==> cache.disk == old(cache.disk) && cache.images == old(cache.images) && AllPinned(cache.bufs)
      ensures ok ==> Ready() && lh == [] && cache.view == cache.disk
      ensures ok ==> cache.disk == ClearHead(l, old(cache.disk)) && cache.images == old(cache.images) + [cache.disk]
    {
      lh := [];
      EmptyHead(l, cache.disk);
      ok := WriteHead({});
      if ok { AllClean(); }
    }

    /** commit(): whether or not it gets to its end, the disk images it leaves behind are
        those of its first writes, in order, and a crash at any of them is survived. */
    method Commit() returns (ok: bool)
      requires Ready()
      modifies this, cache
      ensures CommitRan(cache.images, old(cache.images), l, old(cache.disk), old(cache.view), old(lh))
      ensures CrashSafe(cache.images, old(cache.images), l, old(cache.disk), old(cache.view), |old(lh)|)
      ensures ok ==> |cache.images| == |old(cache.images)| + if old(lh) == [] then 0 else 2 * |old(lh)| + 2
      ensures ok ==> Ready() && lh == [] && cache.view == cache.disk
      ensures ok ==> Agree(l, cache.disk, old(cache.view))
      ensures !ok ==> AllPinned(cache.bufs)
      ensures ok <==> old(lh) == [] || HasLog(old(cache.bufs), l, |old(lh)|)
      ensures Unreferenced(old(cache.bufs)) ==> (ok <==> old(lh) == [] || |old(lh)| < |old(cache.bufs)|)
    {
      if Unreferenced(cache.bufs) { FullOfLogged(); }
      LogIsEnough();
      ghost var d, v, n, before := cache.disk, cache.view, lh, cache.images;
      OthersClean();
      if |lh| > 0 {
        CommitAgrees();
        ok := LogAndInstall();
        if ok {
          ghost var sofar := cache.images;
          ok := Erase();
          if ok { CommitLast(sofar, before, l, d, v, n, cache.disk); }
        }
      } else {
        assert Listed(lh) == {};
        AllClean();
        CommitNone(before, l, d, v, n);
        ok := true;
      }
      CommitIsCrashSafe(cache.images, before, l, d, v, n);
    }

    /** With no buffer referenced, the log's blocks find buffers exactly if the transaction has fewer
        blocks than there are buffers. */
    lemma FullOfLogged()
      requires Ready() && Unreferenced(cache.bufs)
      ensures HasLog(cache.bufs, l, |lh|) <==> |lh| < |cache.bufs|
    {
      CountBuffers(cache.bufs, lh, cache.disk);
      if |lh| >= |cache.bufs| { assert NoBuffer(cache.bufs, ROOTDEV, l.start); }
    }

    lemma LogIsEnough()
      requires Ready()
      ensures HasLog(cache.bufs, l, |lh|) ==> Enough(cache.bufs, l, lh, 0)
    {
    }

    lemma OthersClean()
      requires Ready()
      ensures |cache.view| == |cache.disk|
      ensures forall b: nat | b < |cache.disk| && Home(l, b) && b !in lh :: cache.view[b] == cache.disk[b]
    {
      forall b: nat | b < |cache.disk| && b !in lh ensures cache.view[b] == cache.disk[b] { CleanView(Listed(lh), b); }
    }

    lemma CommitAgrees()
      requires Ready()
      ensures
        var e := Install(l, Committed(l, cache.disk, cache.view, lh), lh, |lh|);
        Agree(l, e, cache.view) && Agree(l, ClearHead(l, e), cache.view)
    {
      forall b: nat | b < |cache.disk| && b !in lh ensures cache.view[b] == cache.disk[b] { CleanView(Listed(lh), b); }
      CommittedAgrees(l, cache.disk, cache.view, lh);
    }

    method ReadHead() returns (ok: bool)
      requires cache.Valid() && Quiet(cache.bufs) && DirtyOnly(cache.bufs, {})
      requires Fits(l, cache.disk) && HeadReadable(cache.disk[l.start])
      modifies this, cache
      ensures cache.disk == old(cache.disk) && cache.images == old(cache.images)
      ensures ok <==> !NoBuffer(old(cache.bufs), ROOTDEV, l.start)
      ensures !ok ==> AllPinned(cache.bufs)
      ensures ok ==> Loosens(old(cache.bufs), cache.bufs, l.start)
      ensures ok ==> cache.Valid() && Quiet(cache.bufs) && DirtyOnly(cache.bufs, {})
      ensures ok ==> lh == Head(cache.disk[l.start])
    {
      QuietCalm(cache.bufs, cache.disk, l, lh);
      CleanView({}, l.start);
      var r, _ := cache.Bread(0, l.start);
      if r.None? { return false; }
      var data := cache.bufs[r.value].data;
      var i, blocks := 0, [];
      while i < Word(data, 0)
        invariant 0 <= i <= Word(data, 0)
        invariant |blocks| == i && forall j | 0 <= j < i :: blocks[j] == Word(data, j + 1)
      {
        blocks := blocks + [Word(data, i + 1)];
        i := i + 1;
      }
      assert blocks == Head(data);
      lh := blocks;
      cache.Brelse(r.value, 0);
      return true;
    }

    /** recover_from_log(), run at boot from whatever a crash left. */
    method RecoverFromLog() returns (ok: bool, ghost w: nat)
      requires cache.Valid() && Quiet(cache.bufs) && DirtyOnly(cache.bufs, {})
      requires Recoverable(l, cache.disk) && |cache.disk| <= TWO32
      modifies this, cache
      ensures RecoveryRan(cache.images, old(cache.images), l, old(cache.disk), w)
      ensures ok ==> Ready() && lh == [] && cache.view == cache.disk
      ensures ok ==> cache.disk == Recovered(l, old(cache.disk))
      ensures !ok ==> AllPinned(cache.bufs)
      ensures Spare(old(cache.bufs)) ==> ok
      ensures Unreferenced(old(cache.bufs)) ==>
        (ok <==> |old(cache.bufs)| >= 2 || (|old(cache.bufs)| == 1 && Head(old(cache.disk)[l.start]) == []))
    {
      hide Head, HeadReadable, Loggable, Recoverable, InstallImages, Install, Recovered, RecoveryRan, ClearHead;
      hide BufferCache.Valid, Quiet, Calm, DirtyOnly, Spare, Enough, AllPinned, NoBuffer, Loosens, Unreferenced;
      RecoverableHead(l, cache.disk);
      AtBoot(cache.bufs, l.start);
      ghost var d, before := cache.disk, cache.images;
      w := 0;
      RecoveryNone(before, l, d);
      ok := ReadHead();
      if !ok { return; }
      StillEnoughAtBoot(old(cache.bufs), cache.bufs, l, lh);
      QuietCalm(cache.bufs, cache.disk, l, lh);
      ghost var n := lh;
      ok, w := InstallTrans({});
      RecoveryTail(cache.images, before, l, d, n, w);
      if !ok { return; }
      Suffices(cache.bufs, l, lh, |lh|, 0);
      ghost var none: set<nat> := {};
      assert none - Listed(lh) == none;
      ghost var sofar := cache.images;
      ok := Erase();
      if ok {
        RecoveryLast(sofar, before, l, d, n, cache.disk);
        w := w + 1;
      }
    }

    ghost predicate Full()
      reads this
    {
      |lh| >= LOGSIZE || |lh| >= l.size - 1
    }

    /** log_write(b) with log.outstanding operations running: false is one of its panics, "too big
        a transaction" or "log_write outside of trans". */
    method LogWrite(b: nat, pid: nat, outstanding: nat) returns (ok: bool)
      requires cache.Valid() && b < |cache.bufs| && cache.bufs[b].holder == Some(pid) && cache.bufs[b].valid
      requires DirtyOnly(cache.bufs, Listed(lh)) && Loggable(l, cache.disk, lh) && Distinct(lh)
      requires |cache.disk| <= TWO32 && Home(l, cache.bufs[b].blockno)
      modifies this, cache`bufs
      ensures cache.Valid()
      ensures ok <==> !old(Full()) && outstanding >= 1
      ensures !ok ==> lh == old(lh) && cache.bufs == old(cache.bufs)
      ensures ok ==>
        && lh == (if cache.bufs[b].blockno in old(lh) then old(lh) else old(lh) + [cache.bufs[b].blockno])
        && cache.bufs == old(cache.bufs)[b := old(cache.bufs)[b].(dirty := true)]
        && DirtyOnly(cache.bufs, Listed(lh)) && Loggable(l, cache.disk, lh) && Distinct(lh)
      ensures cache.view == old(cache.view)
    {
      if |lh| >= LOGSIZE || |lh| >= l.size - 1 {
        return false;
      }
      if outstanding < 1 {
        return false;
      }
      var blockno := cache.bufs[b].blockno;
      var i := 0;
      while i < |lh|
        invariant 0 <= i <= |lh|
        invariant forall j | 0 <= j < i :: lh[j] != blockno
      {
        if lh[i] == blockno { break; }
        i := i + 1;
      }
      if i == |lh| {
        lh := lh + [blockno];
      } else {
        lh := lh[i := blockno];
      }
      cache.Pin(b, pid);
      return true;
    }

    /** The use log_write is made for: read a block, change it, log it, release it.
        The change shows to every later read and stays off the disk. */
    method Update(pid: nat, blockno: nat, data: Block, outstanding: nat) returns (ok: bool)
      requires Open() && blockno < |cache.disk| && Home(l, blockno) && Free(cache.bufs, blockno)
      modifies this, cache
      ensures cache.disk == old(cache.disk) && cache.images == old(cache.images)
      ensures ok <==> !NoBuffer(old(cache.bufs), ROOTDEV, blockno) && !old(Full()) && outstanding >= 1
      ensures ok ==> Open() && cache.view == old(cache.view)[blockno := data]
      ensures ok && old(Ready()) ==> Ready()
      ensures ok ==> lh == if blockno in old(lh) then old(lh) else old(lh) + [blockno]
      ensures ok ==>
        && |cache.bufs| == |old(cache.bufs)|
        && forall i | 0 <= i < |cache.bufs| :: cache.bufs[i].refcnt == old(cache.bufs)[i].refcnt
    {
      ghost var bufs := cache.bufs;
      var r, _ := cache.Bread(pid, blockno);
      if r.None? { return false; }
      ReadKeeps(bufs, cache.bufs, r.value, blockno, lh);
      ghost var mid, n := cache.bufs, lh;
      ok := Change(r.value, pid, data, outstanding);
      if ok && Calm(bufs, cache.disk, l, n) {
        UpdateCalm(bufs, mid, cache.bufs, r.value, blockno, cache.disk, l, n, lh);
      }
    }

    method Change(b: nat, pid: nat, data: Block, outstanding: nat) returns (ok: bool)
      requires cache.Valid() && b < |cache.bufs| && cache.bufs[b].holder == Some(pid) && cache.bufs[b].valid
      requires DirtyOnly(cache.bufs, Listed(lh)) && Loggable(l, cache.disk, lh) && Distinct(lh)
      requires Kept(cache.bufs, lh, 0)
      requires |cache.disk| <= TWO32 && Home(l, cache.bufs[b].blockno)
      modifies this, cache
      ensures cache.disk == old(cache.disk) && cache.images == old(cache.images)
      ensures ok <==> !old(Full()) && outstanding >= 1
      ensures ok ==>
        var blockno := old(cache.bufs)[b].blockno;
        && cache.Valid()
        && lh == (if blockno in old(lh) then old(lh) else old(lh) + [blockno])
        && DirtyOnly(cache.bufs, Listed(lh)) && Loggable(l, cache.disk, lh) && Distinct(lh) && Kept(cache.bufs, lh, 0)
        && cache.view == old(cache.view)[blockno := data]
      ensures ok ==>
        var was := old(cache.bufs)[b];
        cache.bufs == old(cache.bufs)[b := was.(data := data, dirty := true, holder := None, refcnt := was.refcnt - 1)]
    {
      hide BufferCache.Valid, Kept, Loggable, Distinct;
      OnRoot(b);
      cache.SetData(b, pid, data);
      ok := LogWrite(b, pid, outstanding);
      if ok {
        cache.Brelse(b, pid);
        PinKeeps(old(cache.bufs), cache.bufs, b, old(lh), lh);
      }
    }

    /** With no buffer referenced, a block that is not listed gets a buffer exactly if the
        transaction has fewer blocks than there are buffers. */
    lemma RoomToRead(blockno: nat)
      requires Open() && Unreferenced(cache.bufs) && blockno !in lh
      ensures Free(cache.bufs, blockno)
      ensures NoBuffer(cache.bufs, ROOTDEV, blockno) <==> |lh| >= |cache.bufs|
    {
      CountBuffers(cache.bufs, lh, cache.disk);
      forall i | 0 <= i < |cache.bufs| ensures cache.bufs[i].holder.None? {
        assert BufOk(cache.bufs[i], cache.disk);
      }
    }
  }

  function Min(a: int, b: int): int { if a < b then a else b }

  /** How many blocks the log takes before log_write panics. */
  function Capacity(l: Layout): int { Min(LOGSIZE, l.size - 1) }

  /** The first k blocks have been changed. */
  ghost predicate Changed(was: Disk, now: Disk, homes: seq<word>, data: seq<Block>, k: nat)
  {
    && k <= |homes| == |data| && |now| == |was|
    && (forall i | 0 <= i < k :: homes[i] < |now| && now[homes[i]] == data[i])
    && (forall b: nat | b < |now| && b !in homes[..k] :: now[b] == was[b])
  }

  lemma ChangedStep(was: Disk, now: Disk, homes: seq<word>, data: seq<Block>, k: nat)
    requires Changed(was, now, homes, data, k) && Distinct(homes) && k < |homes| && homes[k] < |was|
    ensures homes[k] < |now|
    ensures Changed(was, now[homes[k] := data[k]], homes, data, k + 1)
    ensures homes[..k + 1] == homes[..k] + [homes[k]] && homes[k] !in homes[..k]
  {
  }

  /** A boot on a fresh log, and home blocks to change: different ones. */
  ghost predicate Start(disk: Disk, l: Layout, homes: seq<word>, data: seq<Block>)
  {
    && Fits(l, disk) && |disk| <= TWO32 && (forall j | 0 <= j < WORDS :: Word(disk[l.start], j) == 0)
    && |data| == |homes| && Distinct(homes)
    && forall i | 0 <= i < |homes| :: homes[i] < |disk| && Home(l, homes[i])
  }

  /** A whole transaction after binit: an operation changes the given blocks and commits. The
      updates succeed as long as there are a log entry and a buffer for each; the commit succeeds
      exactly if all did and a buffer is left, and every crash during it is survived. */
  method Transaction(nbuf: nat, disk: Disk, l: Layout, homes: seq<word>, data: seq<Block>)
    returns (done: nat, ok: bool, log: Log, ghost v: Disk)
    requires Start(disk, l, homes, data)
    ensures done == Min(|homes|, Min(nbuf, Capacity(l)))
    ensures ok <==> done == |homes| && (homes == [] || |homes| < nbuf)
    ensures Changed(disk, v, homes, data, done)
    ensures done == |homes| ==> CrashSafe(log.cache.images, [disk], l, disk, v, |homes|)
    ensures ok ==> log.Ready() && log.lh == [] && Agree(l, log.cache.disk, v)
  {
    hide Log.Open, Log.Ready, Changed;
    var cache := new BufferCache.Binit(nbuf, disk);
    log := new Log(cache, l);
    FreshStart(log, homes, data);
    done := 0;
    while done < |homes|
      invariant 0 <= done <= |homes| && done <= nbuf && done <= Capacity(l) && |cache.bufs| == nbuf
      invariant log.cache == cache && log.l == l && log.Open() && log.Ready() && Unreferenced(cache.bufs)
      invariant log.lh == homes[..done] && cache.disk == disk && cache.images == [disk]
      invariant Changed(disk, cache.view, homes, data, done)
    {
      v := cache.view;
      ChangedStep(disk, v, homes, data, done);
      log.RoomToRead(homes[done]);
      ok := log.Update(0, homes[done], data[done], 1);
      if !ok { return; }
      done := done + 1;
    }
    v := cache.view;
    assert homes[..|homes|] == homes;
    ok := log.Commit();
  }

  lemma FreshStart(log: Log, homes: seq<word>, data: seq<Block>)
    requires Start(log.cache.disk, log.l, homes, data) && log.lh == [] && log.cache.Valid()
    requires log.cache.view == log.cache.disk
    requires forall i | 0 <= i < |log.cache.bufs| :: log.cache.bufs[i] == Buf(0, 0, false, false, 0, None, ZERO)
    ensures log.Open() && log.Ready() && Unreferenced(log.cache.bufs)
    ensures Changed(log.cache.disk, log.cache.view, homes, data, 0)
  {
    FreshLog(log.l, log.cache.disk);
  }

  /** A log of LOGSIZE + 1 blocks and LOGSIZE buffers: LOGSIZE updates succeed, and their commit
      does not. */
  method FullLogStops() returns (done: nat, ok: bool)
    ensures done == LOGSIZE && !ok
  {
    var disk := seq(100, _ => ZERO);
    var homes := seq(LOGSIZE, i requires 0 <= i < LOGSIZE => (40 + i) as word);
    var data := seq(LOGSIZE, _ => ZERO);
    ZeroWords();
    var log;
    ghost var v;
    done, ok, log, v := Transaction(LOGSIZE, disk, Layout(2, LOGSIZE + 1), homes, data);
  }
}
