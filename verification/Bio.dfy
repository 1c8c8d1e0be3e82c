/** The circular doubly linked list through prev/next that the buffer cache
    keeps, as the sequence of its members from head.next onward. */
module LruRing {

  /** Position k of the ring: a member, or the sentinel at both ends. */
  function Node(lru: seq<nat>, head: nat, k: int): (n: nat)
  {
    if 0 <= k < |lru| then lru[k] else head
  }

  ghost predicate Ring(next: seq<nat>, prev: seq<nat>, lru: seq<nat>, head: nat)
  {
    && |next| == head + 1 && |prev| == head + 1
    && (forall k | 0 <= k < |lru| :: lru[k] < head)
    && (forall j, k | 0 <= j < k < |lru| :: lru[j] != lru[k])
    && (forall j, k | -1 <= j < |lru| && k == j + 1 ::
          next[Node(lru, head, j)] == Node(lru, head, k) && prev[Node(lru, head, k)] == Node(lru, head, j))
  }

  ghost predicate Complete(lru: seq<nat>, head: nat)
  {
    forall i: nat | i < head :: i in lru
  }

  function MoveToFront(lru: seq<nat>, k: nat): (r: seq<nat>)
    requires k < |lru|
  {
    [lru[k]] + lru[..k] + lru[k + 1..]
  }

  /** Times of last release: all in the past, and decreasing along the ring. */
  ghost predicate Ordered(lru: seq<nat>, released: seq<nat>, clock: nat)
  {
    && (forall i | 0 <= i < |released| :: released[i] < clock)
    && (forall k | 0 <= k < |lru| :: lru[k] < |released|)
    && (forall j, k | 0 <= j < k < |lru| :: released[lru[k]] < released[lru[j]])
  }

  /** Linking x in right after the sentinel puts it first. */
  lemma InsertFirst(next: seq<nat>, prev: seq<nat>, lru: seq<nat>, head: nat, x: nat)
    requires Ring(next, prev, lru, head) && x < head && x !in lru
    ensures
      var first := next[head];
      first <= head &&
      Ring(next[x := first][head := x], prev[x := head][first := x], [x] + lru, head)
  {
    var first := next[head];
    assert first == Node(lru, head, 0) by { assert Node(lru, head, -1) == head; }
    var l := [x] + lru;
    var n := next[x := first][head := x];
    var p := prev[x := head][first := x];
    forall j, k | -1 <= j < |l| && k == j + 1
      ensures n[Node(l, head, j)] == Node(l, head, k) && p[Node(l, head, k)] == Node(l, head, j)
    {
      if j > 0 {
        assert Node(l, head, j) == Node(lru, head, j - 1) && Node(l, head, k) == Node(lru, head, k - 1);
      }
    }
  }

  /** Joining x's two neighbours takes exactly x out of the ring. */
  lemma Unlink(next: seq<nat>, prev: seq<nat>, lru: seq<nat>, head: nat, k: nat)
    requires Ring(next, prev, lru, head) && k < |lru|
    ensures
      var x := lru[k];
      next[x] <= head && prev[x] <= head &&
      Ring(next[prev[x] := next[x]], prev[next[x] := prev[x]], lru[..k] + lru[k + 1..], head)
    ensures lru[k] !in lru[..k] + lru[k + 1..]
  {
    var x := lru[k];
    var l := lru[..k] + lru[k + 1..];
    assert next[x] == Node(lru, head, k + 1) && prev[x] == Node(lru, head, k - 1) by {
      assert x == Node(lru, head, k);
    }
    var n := next[prev[x] := next[x]];
    var p := prev[next[x] := prev[x]];
    forall i, j | -1 <= i < |l| && j == i + 1
      ensures n[Node(l, head, i)] == Node(l, head, j) && p[Node(l, head, j)] == Node(l, head, i)
    {
      var i' := if i < k then i else i + 1;
      var j' := if j < k then j else j + 1;
      assert Node(l, head, i) == Node(lru, head, i') && Node(l, head, j) == Node(lru, head, j');
      assert next[Node(lru, head, i')] == Node(lru, head, i' + 1);
      assert prev[Node(lru, head, j')] == Node(lru, head, j' - 1);
    }
  }

  /** The list surgery of brelse, as a whole. */
  lemma MoveRing(next: seq<nat>, prev: seq<nat>, lru: seq<nat>, head: nat, k: nat)
    requires Ring(next, prev, lru, head) && k < |lru|
    ensures
      var x := lru[k];
      && next[x] <= head && prev[x] <= head
      && var n := next[prev[x] := next[x]];
         var p := prev[next[x] := prev[x]];
         n[head] <= head &&
         Ring(n[x := n[head]][head := x], p[x := head][n[head] := x], MoveToFront(lru, k), head)
  {
    var x := lru[k];
    Unlink(next, prev, lru, head, k);
    InsertFirst(next[prev[x] := next[x]], prev[next[x] := prev[x]], lru[..k] + lru[k + 1..], head, x);
    assert MoveToFront(lru, k) == [x] + (lru[..k] + lru[k + 1..]);
  }

  lemma FrontComplete(lru: seq<nat>, k: nat, head: nat)
    requires k < |lru| && Complete(lru, head)
    ensures Complete(MoveToFront(lru, k), head)
  {
    var m := MoveToFront(lru, k);
    forall i: nat | i < head ensures i in m {
      assert i in lru;
      var p :| 0 <= p < |lru| && lru[p] == i;
      if p < k { assert m[p + 1] == i; } else if p > k { assert m[p] == i; } else { assert m[0] == i; }
    }
  }

  /** Moving a buffer to the front at the present time keeps the ring in release order. */
  lemma FrontOrdered(lru: seq<nat>, released: seq<nat>, clock: nat, k: nat)
    requires Ordered(lru, released, clock) && k < |lru|
    requires forall j | 0 <= j < |lru| && j != k :: lru[j] != lru[k]
    ensures Ordered(MoveToFront(lru, k), released[lru[k] := clock], clock + 1)
  {
    var m := MoveToFront(lru, k);
    forall j | 0 < j < |m| ensures m[j] == lru[if j <= k then j - 1 else j] && m[j] != lru[k] {
    }
  }
}

/** bio.c over memide.c: the buffer cache and the disk below it. */
module Bio {
  import opened Basics
  import opened Words
  import opened LruRing

  /** struct buf without its list links; `holder` is the process in its sleep-lock. */
  datatype Buf = Buf(dev: nat, blockno: nat, valid: bool, dirty: bool,
                     refcnt: nat, holder: Option<nat>, data: Block)

  const ROOTDEV := 1

  ghost predicate Same(b: Buf, dev: nat, blockno: nat)
  {
    b.dev == dev && b.blockno == blockno
  }

  /** At most one buffer per block; only device 0, which no caller uses, is exempt
      because every buffer starts with identity (0, 0). */
  ghost predicate Unique(bufs: seq<Buf>)
  {
    forall i, j, dev, blockno | dev != 0 && At(bufs, i, dev, blockno) && At(bufs, j, dev, blockno) :: i == j
  }

  ghost predicate At(bufs: seq<Buf>, i: int, dev: nat, blockno: nat)
  {
    0 <= i < |bufs| && Same(bufs[i], dev, blockno)
  }

  ghost predicate BufOk(b: Buf, disk: seq<Block>)
  {
    && (b.holder.Some? ==> b.refcnt > 0)
    && (b.valid || b.dirty ==> b.dev == ROOTDEV && b.blockno < |disk|)
    && (b.dirty ==> b.valid)
    && (b.valid && !b.dirty && b.holder.None? ==> b.data == disk[b.blockno])
  }

  ghost predicate Caches(bufs: seq<Buf>, i: int, blockno: nat)
  {
    0 <= i < |bufs| && bufs[i].dev == ROOTDEV && bufs[i].blockno == blockno && bufs[i].valid
  }

  ghost predicate Cached(bufs: seq<Buf>, blockno: nat)
  {
    exists i :: Caches(bufs, i, blockno)
  }

  /** `view` is what the cache and the disk together say each block contains. */
  ghost predicate Shows(bufs: seq<Buf>, disk: seq<Block>, view: seq<Block>)
  {
    && |view| == |disk|
    && (forall i | 0 <= i < |bufs| && bufs[i].valid ::
          bufs[i].blockno < |view| && view[bufs[i].blockno] == bufs[i].data)
    && (forall b: nat | b < |disk| && !Cached(bufs, b) :: view[b] == disk[b])
  }

  ghost predicate Pinned(b: Buf)
  {
    b.refcnt > 0 || b.dirty
  }

  ghost predicate AllPinned(bufs: seq<Buf>)
  {
    forall j | 0 <= j < |bufs| :: Pinned(bufs[j])
  }

  /** bget's panic: the block has no buffer and there is none to recycle. */
  ghost predicate NoBuffer(bufs: seq<Buf>, dev: nat, blockno: nat)
  {
    AllPinned(bufs) && forall j | 0 <= j < |bufs| :: !Same(bufs[j], dev, blockno)
  }

  /** Reading a block: the buffer taken was pinned for that block, or nobody's. */
  ghost predicate Reads(was: seq<Buf>, now: seq<Buf>, r: nat, blockno: nat)
  {
    && r < |now| == |was| && now == was[r := now[r]]
    && Same(now[r], ROOTDEV, blockno) && (Pinned(was[r]) ==> Same(was[r], ROOTDEV, blockno))
    && (was[r].dirty <==> now[r].dirty)
    && now[r].refcnt == (if Same(was[r], ROOTDEV, blockno) then was[r].refcnt else 0) + 1
  }

  /** No buffer in use has been given to another block. */
  ghost predicate KeepsIdentity(before: seq<Buf>, after: seq<Buf>)
  {
    && |before| == |after|
    && forall j | 0 <= j < |before| && Pinned(before[j]) :: Same(after[j], before[j].dev, before[j].blockno)
  }

  /** A change to one buffer that keeps its identity, or takes one nobody has. */
  lemma StaysUnique(was: seq<Buf>, now: seq<Buf>, i: nat)
    requires Unique(was) && |now| == |was| && i < |was|
    requires forall j | 0 <= j < |was| && j != i :: now[j] == was[j]
    requires
      || Same(now[i], was[i].dev, was[i].blockno)
      || forall j | 0 <= j < |was| :: !Same(was[j], now[i].dev, now[i].blockno)
    ensures Unique(now)
  {
    forall j, k, dev, blockno | dev != 0 && At(now, j, dev, blockno) && At(now, k, dev, blockno)
      ensures j == k
    {
      if Same(now[i], was[i].dev, was[i].blockno) {
        assert At(was, j, dev, blockno) && At(was, k, dev, blockno);
      } else if j != i && k != i {
        assert At(was, j, dev, blockno) && At(was, k, dev, blockno);
      }
    }
  }

  /** A change to one buffer leaves the view as it was, if that buffer shows its old
      block as before or leaves it to the disk. */
  lemma SameView(was: seq<Buf>, now: seq<Buf>, disk: seq<Block>, view: seq<Block>, i: nat)
    requires Unique(was) && Shows(was, disk, view) && |now| == |was| && i < |was|
    requires forall j | 0 <= j < |was| && j != i :: now[j] == was[j]
    requires
      || (Same(now[i], was[i].dev, was[i].blockno) && now[i].valid == was[i].valid && now[i].data == was[i].data)
      || (!now[i].valid && forall j | 0 <= j < |was| :: !Same(was[j], now[i].dev, now[i].blockno))
    requires was[i].valid && !now[i].valid ==> was[i].data == disk[was[i].blockno]
    ensures Unique(now) && Shows(now, disk, view)
  {
    StaysUnique(was, now, i);
    forall b: nat | b < |disk| && !Cached(now, b) ensures view[b] == disk[b] {
      if Cached(was, b) {
        var k :| Caches(was, k, b);
        assert !Caches(now, k, b);
      }
    }
  }

  /** A valid buffer decides what its block contains. */
  lemma NewView(was: seq<Buf>, now: seq<Buf>, disk: seq<Block>, disk': seq<Block>, view: seq<Block>, i: nat)
    requires Unique(was) && Shows(was, disk, view) && |now| == |was| && i < |was|
    requires forall j | 0 <= j < |was| && j != i :: now[j] == was[j]
    requires now[i].valid && Same(now[i], was[i].dev, was[i].blockno)
    requires now[i].dev == ROOTDEV && now[i].blockno < |disk| == |disk'|
    requires forall j | 0 <= j < |was| && was[j].valid :: was[j].dev == ROOTDEV
    requires forall b | 0 <= b < |disk| && b != now[i].blockno :: disk'[b] == disk[b]
    ensures Unique(now) && Shows(now, disk', view[now[i].blockno := now[i].data])
  {
    StaysUnique(was, now, i);
    var v := view[now[i].blockno := now[i].data];
    forall j | 0 <= j < |now| && now[j].valid ensures v[now[j].blockno] == now[j].data {
      if now[j].blockno == now[i].blockno {
        assert At(now, j, ROOTDEV, now[i].blockno) && At(now, i, ROOTDEV, now[i].blockno);
      }
    }
    forall b: nat | b < |disk| && !Cached(now, b) ensures v[b] == disk'[b] {
      assert !Caches(now, i, b);
      assert forall k :: Caches(was, k, b) ==> Caches(now, k, b);
    }
  }

  class BufferCache {
    var bufs: seq<Buf>
    var next: seq<nat>
    var prev: seq<nat>
    var disk: seq<Block>
    ghost var lru: seq<nat>
    ghost var view: seq<Block>          // the block contents as callers see them
    ghost var images: seq<seq<Block>>   // every image the disk has had, latest last
    ghost var released: seq<nat>        // when each buffer was last released by its last user
    ghost var clock: nat

    ghost predicate Valid()
      reads this
    {
      && Ring(next, prev, lru, |bufs|)
      && Complete(lru, |bufs|)
      && |released| == |bufs|
      && Ordered(lru, released, clock)
      && Unique(bufs)
      && (forall i | 0 <= i < |bufs| :: BufOk(bufs[i], disk))
      && Shows(bufs, disk, view)
      && |images| > 0 && images[|images| - 1] == disk
    }

    /** binit: buffers are pushed one by one at the front of the list. */
    constructor Binit(nbuf: nat, disk: seq<Block>)
      ensures Valid()
      ensures |bufs| == nbuf && this.disk == disk && images == [disk]
      ensures forall i | 0 <= i < nbuf :: bufs[i] == Buf(0, 0, false, false, 0, None, ZERO)
      ensures view == disk
    {
      var nx: seq<nat> := seq(nbuf + 1, _ => nbuf);
      var pv: seq<nat> := seq(nbuf + 1, _ => nbuf);
      ghost var l: seq<nat> := [];
      var b := 0;
      while b < nbuf
        invariant 0 <= b <= nbuf
        invariant Ring(nx, pv, l, nbuf) && |l| == b
        invariant forall k | 0 <= k < b :: l[k] == b - 1 - k
      {
        InsertFirst(nx, pv, l, nbuf, b);
        var first := nx[nbuf];
        nx, pv := nx[b := first][nbuf := b], pv[b := nbuf][first := b];
        l := [b] + l;
        b := b + 1;
      }
      forall i: nat | i < nbuf ensures i in l { assert l[nbuf - 1 - i] == i; }
      bufs := seq(nbuf, _ => Buf(0, 0, false, false, 0, None, ZERO));
      next, prev, lru := nx, pv, l;
      this.disk, images := disk, [disk];
      released, clock := seq(nbuf, i => i), nbuf;
      view := disk;
    }

    /** First scan of bget: the buffer holding the block, or the sentinel. */
    method FindCached(dev: nat, blockno: nat) returns (b: nat)
      requires Valid()
      ensures b <= |bufs|
      ensures b < |bufs| ==> Same(bufs[b], dev, blockno)
      ensures b == |bufs| ==> forall j | 0 <= j < |bufs| :: !Same(bufs[j], dev, blockno)
    {
      ghost var k := 0;
      assert Node(lru, |bufs|, -1) == |bufs|;
      b := next[|bufs|];
      while b != |bufs|
        invariant 0 <= k <= |lru| && b == Node(lru, |bufs|, k)
        invariant forall j | 0 <= j < k :: !Same(bufs[lru[j]], dev, blockno)
        decreases |lru| - k
      {
        if bufs[b].dev == dev && bufs[b].blockno == blockno { return; }
        b := next[b];
        k := k + 1;
      }
      forall j | 0 <= j < |bufs| ensures !Same(bufs[j], dev, blockno) { assert j in lru; }
    }

    /** Second scan of bget, from the tail: the buffer to recycle, or the sentinel. */
    method FindVictim() returns (b: nat)
      requires Valid()
      ensures b <= |bufs|
      ensures b < |bufs| ==> !Pinned(bufs[b])
      ensures b < |bufs| ==> forall j | 0 <= j < |bufs| && !Pinned(bufs[j]) :: released[b] <= released[j]
      ensures b == |bufs| ==> AllPinned(bufs)
    {
      ghost var k := |lru| - 1;
      assert Node(lru, |bufs|, |lru|) == |bufs|;
      b := prev[|bufs|];
      while b != |bufs|
        invariant -1 <= k < |lru| && b == Node(lru, |bufs|, k)
        invariant forall j | k < j < |lru| :: Pinned(bufs[lru[j]])
        decreases k + 1
      {
        if bufs[b].refcnt == 0 && !bufs[b].dirty {
          forall j | 0 <= j < |bufs| && !Pinned(bufs[j]) ensures released[b] <= released[j] { assert j in lru; }
          return;
        }
        b := prev[b];
        k := k - 1;
      }
      forall j | 0 <= j < |bufs| ensures Pinned(bufs[j]) { assert j in lru; }
    }

    /** bget up to its acquiresleep. None is the panic "bget: no buffers". */
    method Get(dev: nat, blockno: nat) returns (r: Option<nat>)
      requires Valid() && dev != 0
      modifies this
      ensures Valid()
      ensures disk == old(disk) && images == old(images)
      ensures view == old(view)
      ensures KeepsIdentity(old(bufs), bufs)
      ensures r.None? <==> NoBuffer(old(bufs), dev, blockno)
      ensures r.None? ==> bufs == old(bufs)
      ensures r.Some? ==> r.value < |bufs| && Same(bufs[r.value], dev, blockno) && bufs[r.value].refcnt > 0
      ensures r.Some? ==> forall j | 0 <= j < |bufs| && j != r.value :: bufs[j] == old(bufs)[j]
      ensures r.Some? ==>
        var was := old(bufs)[r.value];
        if Same(was, dev, blockno) then bufs[r.value] == was.(refcnt := was.refcnt + 1)
        else
          && (forall j | 0 <= j < |bufs| :: !Same(old(bufs)[j], dev, blockno))
          && !Pinned(was)
          && bufs[r.value] == Buf(dev, blockno, false, false, 1, None, was.data)
          && forall j | 0 <= j < |bufs| && !Pinned(old(bufs)[j]) :: old(released)[r.value] <= old(released)[j]
    {
      var b := FindCached(dev, blockno);
      if b != |bufs| {
        bufs := bufs[b := bufs[b].(refcnt := bufs[b].refcnt + 1)];
        SameView(old(bufs), bufs, disk, view, b);
        return Some(b);
      }
      b := FindVictim();
      if b == |bufs| {
        return None;
      }
      bufs := bufs[b := Buf(dev, blockno, false, false, 1, None, bufs[b].data)];
      SameView(old(bufs), bufs, disk, view, b);
      return Some(b);
    }

    /** The acquiresleep at the end of bget, at the moment the lock is free. */
    method Lock(b: nat, pid: nat)
      requires Valid() && b < |bufs| && bufs[b].refcnt > 0 && bufs[b].holder.None?
      modifies this`bufs
      ensures Valid()
      ensures bufs == old(bufs)[b := old(bufs)[b].(holder := Some(pid))]
      ensures view == old(view)
    {
      bufs := bufs[b := bufs[b].(holder := Some(pid))];
      SameView(old(bufs), bufs, disk, view, b);
    }

    /** iderw under the buffer's lock: write a dirty buffer out, or read an invalid one in.
        One call is one disk transfer. */
    method Iderw(b: nat)
      requires Valid() && b < |bufs| && bufs[b].holder.Some?
      requires bufs[b].dirty || !bufs[b].valid
      requires bufs[b].dev == ROOTDEV && bufs[b].blockno < |disk|
      modifies this`bufs, this`disk, this`images
      ensures Valid()
      ensures
        var was := old(bufs)[b];
        if was.dirty then
          && bufs == old(bufs)[b := was.(dirty := false)]
          && disk == old(disk)[was.blockno := was.data]
          && images == old(images) + [disk]
        else
          && bufs == old(bufs)[b := was.(valid := true, data := old(disk)[was.blockno])]
          && disk == old(disk) && images == old(images)
      ensures view == old(view)
    {
      ghost var was := bufs;
      if bufs[b].dirty {
        disk := disk[bufs[b].blockno := bufs[b].data];
        images := images + [disk];
        bufs := bufs[b := bufs[b].(dirty := false)];
      } else {
        Uncached(b);
        bufs := bufs[b := bufs[b].(data := disk[bufs[b].blockno])];
        bufs := bufs[b := bufs[b].(valid := true)];
      }
      NewView(was, bufs, old(disk), disk, view, b);
      assert view == view[bufs[b].blockno := bufs[b].data];
    }

    lemma OneBuffer(i: nat, j: nat)
      requires Valid() && i < |bufs| && j < |bufs|
      requires bufs[i].valid && bufs[j].valid && bufs[i].blockno == bufs[j].blockno
      ensures i == j
    {
      assert At(bufs, i, ROOTDEV, bufs[i].blockno) && At(bufs, j, ROOTDEV, bufs[i].blockno);
    }

    /** The block of a buffer that is not valid is cached nowhere. */
    lemma Uncached(b: nat)
      requires Valid() && b < |bufs| && bufs[b].dev == ROOTDEV && !bufs[b].valid
      ensures !Cached(bufs, bufs[b].blockno)
    {
      forall i ensures !Caches(bufs, i, bufs[b].blockno) {
        if Caches(bufs, i, bufs[b].blockno) {
          assert At(bufs, i, ROOTDEV, bufs[b].blockno) && At(bufs, b, ROOTDEV, bufs[b].blockno);
        }
      }
    }

    /** bread by process `pid`, up to its end or to a buffer that somebody else has locked, where
        it waits. At its end the buffer is locked and holds exactly what was last put in that
        block, on the disk or not. */
    method Bread(pid: nat, blockno: nat) returns (r: Option<nat>, waits: bool)
      requires Valid() && blockno < |disk|
      modifies this
      ensures Valid()
      ensures disk == old(disk) && images == old(images)
      ensures view == old(view)
      ensures KeepsIdentity(old(bufs), bufs)
      ensures r.None? <==> NoBuffer(old(bufs), ROOTDEV, blockno)
      ensures r.None? ==> bufs == old(bufs) && !waits
      ensures r.Some? ==>
        && Reads(old(bufs), bufs, r.value, blockno)
        && (waits <==> old(bufs)[r.value].holder.Some?)
      ensures waits ==> r.Some? && bufs[r.value] == old(bufs)[r.value].(refcnt := bufs[r.value].refcnt)
      ensures r.Some? && !waits ==>
        && bufs[r.value].valid && bufs[r.value].holder == Some(pid)
        && bufs[r.value].data == view[blockno]
        && (!bufs[r.value].dirty ==> bufs[r.value].data == disk[blockno])
    {
      r := Get(ROOTDEV, blockno);
      waits := r.Some? && bufs[r.value].holder.Some?;
      if r.None? || waits { return; }
      Lock(r.value, pid);
      if !bufs[r.value].valid {
        Iderw(r.value);
      }
    }

    /** The holder changes the data it has locked. */
    method SetData(b: nat, pid: nat, data: Block)
      requires Valid() && b < |bufs| && bufs[b].holder == Some(pid) && bufs[b].valid
      modifies this`bufs, this`view
      ensures Valid()
      ensures bufs == old(bufs)[b := old(bufs)[b].(data := data)]
      ensures view == old(view)[bufs[b].blockno := data]
    {
      bufs := bufs[b := bufs[b].(data := data)];
      NewView(old(bufs), bufs, disk, disk, view, b);
      view := view[bufs[b].blockno := data];
    }

    /** bwrite: the one way a block reaches the disk. */
    method Bwrite(b: nat, pid: nat)
      requires Valid() && b < |bufs| && bufs[b].holder == Some(pid) && bufs[b].valid
      modifies this`bufs, this`disk, this`images
      ensures Valid()
      ensures bufs == old(bufs)[b := old(bufs)[b].(dirty := false)]
      ensures disk == old(disk)[bufs[b].blockno := bufs[b].data]
      ensures images == old(images) + [disk]
      ensures view == old(view)
    {
      ghost var was := bufs;
      bufs := bufs[b := bufs[b].(dirty := true)];
      SameView(was, bufs, disk, view, b);
      Iderw(b);
    }

    /** log_write's `b->flags |= B_DIRTY`: pin the buffer until it is written. */
    method Pin(b: nat, pid: nat)
      requires Valid() && b < |bufs| && bufs[b].holder == Some(pid) && bufs[b].valid
      modifies this`bufs
      ensures Valid()
      ensures bufs == old(bufs)[b := old(bufs)[b].(dirty := true)]
      ensures view == old(view)
    {
      bufs := bufs[b := bufs[b].(dirty := true)];
      SameView(old(bufs), bufs, disk, view, b);
    }

    /** First half of brelse. What was changed must have been logged or written. */
    method Unlock(b: nat, pid: nat)
      requires Valid() && b < |bufs| && bufs[b].holder == Some(pid)
      requires bufs[b].valid && !bufs[b].dirty ==> bufs[b].data == disk[bufs[b].blockno]
      modifies this`bufs
      ensures Valid()
      ensures bufs == old(bufs)[b := old(bufs)[b].(holder := None)]
      ensures view == old(view)
    {
      bufs := bufs[b := bufs[b].(holder := None)];
      SameView(old(bufs), bufs, disk, view, b);
    }

    /** Second half of brelse: drop the reference, and make a buffer nobody uses the
        most recently released one. */
    method Drop(b: nat)
      requires Valid() && b < |bufs| && bufs[b].refcnt > 0 && (bufs[b].holder.Some? ==> bufs[b].refcnt > 1)
      modifies this`bufs, this`next, this`prev, this`lru, this`released, this`clock
      ensures Valid()
      ensures bufs == old(bufs)[b := old(bufs)[b].(refcnt := old(bufs)[b].refcnt - 1)]
      ensures view == old(view)
      ensures bufs[b].refcnt > 0 ==> released == old(released)
      ensures bufs[b].refcnt == 0 ==>
        released == old(released)[b := old(clock)] && forall j | 0 <= j < |bufs| && j != b :: released[j] < released[b]
    {
      bufs := bufs[b := bufs[b].(refcnt := bufs[b].refcnt - 1)];
      SameView(old(bufs), bufs, disk, view, b);
      if bufs[b].refcnt == 0 {
        assert b in lru;
        ghost var k :| 0 <= k < |lru| && lru[k] == b;
        MoveFirst(b, k);
      }
    }

    /** Move a buffer to the front of the list: it is now the last one released. */
    method MoveFirst(b: nat, ghost k: nat)
      requires Ring(next, prev, lru, |bufs|) && Complete(lru, |bufs|) && k < |lru| && lru[k] == b
      requires Ordered(lru, released, clock) && |released| == |bufs|
      modifies this`next, this`prev, this`lru, this`released, this`clock
      ensures Ring(next, prev, lru, |bufs|) && Complete(lru, |bufs|)
      ensures Ordered(lru, released, clock) && released == old(released)[b := old(clock)]
    {
      MoveRing(next, prev, lru, |bufs|, k);
      FrontOrdered(lru, released, clock, k);
      FrontComplete(lru, k, |bufs|);
      var nx, pv := next, prev;
      var after, before := nx[b], pv[b];
      pv := pv[after := before];
      nx := nx[before := after];
      var first := nx[|bufs|];
      nx := nx[b := first];
      pv := pv[b := |bufs|];
      pv := pv[first := b];
      nx := nx[|bufs| := b];
      next, prev := nx, pv;
      lru := MoveToFront(lru, k);
      released := released[b := clock];
      clock := clock + 1;
    }

    /** brelse. */
    method Brelse(b: nat, pid: nat)
      requires Valid() && b < |bufs| && bufs[b].holder == Some(pid)
      requires bufs[b].valid && !bufs[b].dirty ==> bufs[b].data == disk[bufs[b].blockno]
      modifies this`bufs, this`next, this`prev, this`lru, this`released, this`clock
      ensures Valid()
      ensures bufs == old(bufs)[b := old(bufs)[b].(holder := None, refcnt := old(bufs)[b].refcnt - 1)]
      ensures view == old(view)
    {
      Unlock(b, pid);
      Drop(b);
    }
  }
}
