/** mkfs.c: the initial image. Blocks and inodes are handed out by counters that only grow. */
module Mkfs {
  import opened Basics
  import opened Words
  import opened Bitmap
  import opened FsSpec
  import opened Fs

  /** The file has no blocks at or beyond o, nor an indirect block unless it needs one. */
  ghost predicate Tight(inode: seq<Dinode>, blocks: seq<Block>, i: nat, o: nat)
    requires i < |inode|
  {
    && (forall n | 0 <= n < MAXFILE && Addr(inode, blocks, i, n) != 0 :: n * BSIZE < o)
    && (TableAddr(inode, i) != 0 ==> NDIRECT * BSIZE < o)
  }

  ghost predicate AllTight(inode: seq<Dinode>, blocks: seq<Block>, except: nat)
  {
    forall i {:trigger Tight(inode, blocks, i, inode[i].size)} | 0 <= i < |inode| && i != except ::
      Tight(inode, blocks, i, inode[i].size)
  }

  lemma StaysTight(inode: seq<Dinode>, blocks: seq<Block>, inode': seq<Dinode>, blocks': seq<Block>, i: nat, n: nat)
    requires i < |inode| && AllTight(inode, blocks, i) && Frame(inode, blocks, inode', blocks', i, n)
    requires forall j | 0 <= j < |inode| && j != i :: inode'[j] == inode[j]
    ensures AllTight(inode', blocks', i)
  {
    forall j | 0 <= j < |inode'| && j != i ensures Tight(inode', blocks', j, inode'[j].size) {
      assert Tight(inode, blocks, j, inode[j].size);
      forall m | 0 <= m < MAXFILE && Addr(inode', blocks', j, m) != 0 ensures m * BSIZE < inode'[j].size {
        assert Kept(inode, blocks, inode', blocks', j, m);
      }
    }
  }

  lemma InRange(g: Geometry, inode: seq<Dinode>, blocks: seq<Block>, owner: Owners)
    requires Owned(g, inode, blocks, owner)
    ensures forall j, m | 0 <= j < |inode| && 0 <= m < MAXFILE && Addr(inode, blocks, j, m) != 0 ::
      Addr(inode, blocks, j, m) < |blocks|
  {
    forall j, m | 0 <= j < |inode| && 0 <= m < MAXFILE && Addr(inode, blocks, j, m) != 0
      ensures Addr(inode, blocks, j, m) < |blocks|
    {
      assert NthOk(inode, blocks, owner, j, m) && BlockOk(g, inode, blocks, owner, Addr(inode, blocks, j, m));
    }
  }

  lemma TightStep(inode: seq<Dinode>, blocks: seq<Block>, inode': seq<Dinode>, blocks': seq<Block>, i: nat, o: nat,
                  data: seq<byte>)
    requires i < |inode| && Tight(inode, blocks, i, o)
    requires ChunkPut(inode, blocks, inode', blocks', i, o, o / BSIZE, data)
    ensures Tight(inode', blocks', i, o + |data|)
  {
    forall n | 0 <= n < MAXFILE && Addr(inode', blocks', i, n) != 0 ensures n * BSIZE < o + |data| {
      if n != o / BSIZE { assert Kept(inode, blocks, inode', blocks', i, n); }
    }
  }

  // ---- how many blocks files take ----

  /** The blocks of a file of n bytes, with its indirect block. */
  function BlocksFor(n: nat): nat
  {
    (n + BSIZE - 1) / BSIZE + if n > NDIRECT * BSIZE then 1 else 0
  }

  lemma BlocksForMore(m: nat, n: nat)
    requires m <= n
    ensures BlocksFor(m) <= BlocksFor(n)
  {
  }

  ghost function Total(files: seq<seq<byte>>): nat
  {
    if files == [] then 0 else Total(files[..|files| - 1]) + BlocksFor(|files[|files| - 1]|)
  }

  lemma {:induction false} TotalUpdate(files: seq<seq<byte>>, i: nat, f: seq<byte>)
    requires i < |files|
    ensures Total(files[i := f]) == Total(files) - BlocksFor(|files[i]|) + BlocksFor(|f|)
  {
    var k := |files| - 1;
    if i == k {
      assert files[i := f][..k] == files[..k];
    } else {
      TotalUpdate(files[..k], i, f);
      assert files[i := f][..k] == files[..k][i := f];
    }
  }

  lemma {:induction false} TotalMore(a: seq<seq<byte>>, b: seq<seq<byte>>)
    requires |a| == |b| && forall j | 0 <= j < |a| :: |a[j]| <= |b[j]|
    ensures Total(a) <= Total(b)
  {
    if a != [] {
      var k := |a| - 1;
      TotalMore(a[..k], b[..k]);
      BlocksForMore(|a[k]|, |b[k]|);
    }
  }

  lemma {:induction false} TotalNone(files: seq<seq<byte>>)
    requires forall j | 0 <= j < |files| :: files[j] == []
    ensures Total(files) == 0
  {
    if files != [] { TotalNone(files[..|files| - 1]); }
  }

  lemma {:induction false} AllGaps(inode: seq<Dinode>, blocks: seq<Block>, i: nat, n: nat, hi: nat)
    requires i < |inode| && n <= hi <= MAXFILE && forall m | n <= m < hi :: Addr(inode, blocks, i, m) == 0
    ensures Gaps(inode, blocks, i, n, hi) == hi - n
    decreases hi - n
  {
    if n < hi { AllGaps(inode, blocks, i, n + 1, hi); }
  }

  /** Of a tight file exactly the blocks from its end on are missing. */
  lemma TightGaps(inode: seq<Dinode>, blocks: seq<Block>, i: nat, o: nat, n: nat, hi: nat)
    requires i < |inode| && o == inode[i].size && FileSized(inode, blocks, i) && Tight(inode, blocks, i, o)
    requires n == o / BSIZE < hi <= MAXFILE
    ensures Gaps(inode, blocks, i, n, hi) == hi - if o % BSIZE == 0 then n else n + 1
  {
    if o % BSIZE == 0 {
      forall m | n <= m < hi ensures Addr(inode, blocks, i, m) == 0 { assert m * BSIZE >= o; }
      AllGaps(inode, blocks, i, n, hi);
    } else {
      forall m | n + 1 <= m < hi ensures Addr(inode, blocks, i, m) == 0 { assert m * BSIZE >= o; }
      AllGaps(inode, blocks, i, n + 1, hi);
      assert n * BSIZE < o && Addr(inode, blocks, i, n) != 0;
    }
  }

  lemma TightTable(inode: seq<Dinode>, blocks: seq<Block>, i: nat)
    requires i < |inode| && FileSized(inode, blocks, i) && Tight(inode, blocks, i, inode[i].size)
    ensures TableAddr(inode, i) != 0 <==> NDIRECT * BSIZE < inode[i].size
  {
    if NDIRECT * BSIZE < inode[i].size { assert Addr(inode, blocks, i, NDIRECT) != 0; }
  }

  lemma EndBlockFor(o: nat, n: nat)
    requires n > 0 && o + n <= MAXFILE * BSIZE
    ensures EndBlock(o, n) == (o + n + BSIZE - 1) / BSIZE && (EndBlock(o, n) > NDIRECT <==> o + n > NDIRECT * BSIZE)
    ensures (o + BSIZE - 1) / BSIZE == if o % BSIZE == 0 then o / BSIZE else o / BSIZE + 1
  {
  }

  /** Appending to a file needs what the longer file has more. */
  lemma NeedsToAppend(inode: seq<Dinode>, blocks: seq<Block>, i: nat, n: nat)
    requires i < |inode| && FileSized(inode, blocks, i) && Tight(inode, blocks, i, inode[i].size)
    requires inode[i].size + n <= MAXFILE * BSIZE
    ensures Needs(inode, blocks, i, inode[i].size, n) == BlocksFor(inode[i].size + n) - BlocksFor(inode[i].size)
  {
    hide FileSized, Tight, Gaps, EndBlock, TableAddr;
    var o := inode[i].size;
    EndBlockIs(o, n);
    if n > 0 {
      EndBlockFor(o, n);
      TightGaps(inode, blocks, i, o, o / BSIZE, EndBlock(o, n));
      TightTable(inode, blocks, i);
    } else {
      NoNeed(inode, blocks, i, o);
    }
  }

  lemma NoNeed(inode: seq<Dinode>, blocks: seq<Block>, i: nat, o: nat)
    requires i < |inode| && o <= MAXFILE * BSIZE
    ensures Needs(inode, blocks, i, o, 0) == 0
  {
  }

  // ---- one append ----

  /** iappend has put the first `done` bytes of src behind the file, which was off bytes long. */
  ghost predicate Appending(was: seq<Dinode>, wasBlocks: seq<Block>, room: int, inode: seq<Dinode>, blocks: seq<Block>,
                            room': int, i: nat, off: nat, done: nat, src: seq<byte>)
  {
    && Written(was, wasBlocks, inode, blocks, i, off, off + done, src) && room >= 0 && room' >= 0
    && AllTight(inode, blocks, i) && Tight(inode, blocks, i, off + done)
    && Spends(was, wasBlocks, room, inode, blocks, room', i, off / BSIZE, (off + done) / BSIZE, EndBlock(off, |src|))
  }

  lemma AppendStart(inode: seq<Dinode>, blocks: seq<Block>, room: nat, i: nat, src: seq<byte>)
    requires i < |inode| && Sized(inode, blocks) && AllTight(inode, blocks, i) && Tight(inode, blocks, i, inode[i].size)
    ensures Appending(inode, blocks, room, inode, blocks, room, i, inode[i].size, 0, src)
  {
    assert FileSized(inode, blocks, i);
    assert inode == inode[i := inode[i].(addrs := inode[i].addrs)];
    SpendNone(inode, blocks, room, i, inode[i].size / BSIZE, EndBlock(inode[i].size, |src|));
  }

  lemma AppendIn(was: seq<Dinode>, wasBlocks: seq<Block>, room: int, inode: seq<Dinode>, blocks: seq<Block>, room': int,
                 i: nat, off: nat, done: nat, src: seq<byte>)
    requires Appending(was, wasBlocks, room, inode, blocks, room', i, off, done, src)
    ensures off + done <= MAXFILE * BSIZE
  {
  }

  lemma ChunkKind(inode1: seq<Dinode>, blocks1: seq<Block>, inode: seq<Dinode>, blocks: seq<Block>, i: nat, o: nat,
                  n: nat,
                  data: seq<byte>)
    requires ChunkPut(inode1, blocks1, inode, blocks, i, o, n, data)
    ensures i < |inode1| == |inode| && inode[i].kind == inode1[i].kind
  {
  }

  lemma AppendedTurn(was: seq<Dinode>, wasBlocks: seq<Block>, room: int, inode1: seq<Dinode>, blocks1: seq<Block>,
                     room1: int,
                     inode: seq<Dinode>, blocks: seq<Block>, room': int, i: nat, off: nat, done: nat, n: nat,
                     data: seq<byte>, src: seq<byte>)
    requires Appending(was, wasBlocks, room, inode1, blocks1, room1, i, off, done, src)
    requires i < |inode1| && FileSized(inode1, blocks1, i)
    requires ChunkPut(inode1, blocks1, inode, blocks, i, off + done, n, data)
    requires done + |data| <= |src| && data == src[done..done + |data|]
    requires n < MAXFILE && room' == room1 - Missing(inode1, blocks1, i, n, n + 1) >= 0
    ensures Appending(was, wasBlocks, room, inode, blocks, room', i, off, done + |data|, src)
  {
    hide Spends, Missing, Gaps, EndBlock, OnlyBytes, ByteAt, FileSized, Tight, AllTight, Frame, Addr, TableAddr;
    ChunkKind(inode1, blocks1, inode, blocks, i, off + done, n, data);
    WrittenStep(was, wasBlocks, inode1, blocks1, inode, blocks, i, off, done, src, n, data);
    TurnSpends(was, wasBlocks, room, inode1, blocks1, room1, inode, blocks, room', i, off, |src|, off + done, n, data);
    StaysTight(inode1, blocks1, inode, blocks, i, n);
    TightStep(inode1, blocks1, inode, blocks, i, off + done, data);
  }

  lemma AppendShort(was: seq<Dinode>, wasBlocks: seq<Block>, room: int, inode1: seq<Dinode>, blocks1: seq<Block>,
                    room1: int,
                    i: nat, off: nat, done: nat, n: nat, src: seq<byte>)
    requires Appending(was, wasBlocks, room, inode1, blocks1, room1, i, off, done, src) && done < |src|
    requires i < |inode1| && n == (off + done) / BSIZE < MAXFILE && room1 < Missing(inode1, blocks1, i, n, n + 1)
    ensures room >= 0 && Short(was, wasBlocks, room, i, off / BSIZE, EndBlock(off, |src|))
  {
    TurnShort(was, wasBlocks, room, inode1, blocks1, room1, i, off, |src|, off + done, n);
  }

  /** The files hold these bytes. */
  ghost predicate Files(inode: seq<Dinode>, blocks: seq<Block>, files: seq<seq<byte>>)
  {
    |files| == |inode| &&
    forall j {:trigger files[j]} | 0 <= j < |inode| ::
      inode[j].size <= MAXFILE * BSIZE && Contents(inode, blocks, j) == files[j]
  }

  /** Bytes behind a file's end are zero. */
  ghost predicate Clean(inode: seq<Dinode>, blocks: seq<Block>)
  {
    forall j, x | 0 <= j < |inode| && inode[j].size <= x < MAXFILE * BSIZE :: ByteAt(inode, blocks, j, x) == 0
  }

  lemma PutClean(was: seq<Dinode>, wasBlocks: seq<Block>, inode: seq<Dinode>, blocks: seq<Block>, i: nat,
                 src: seq<byte>)
    requires i < |was| && Clean(was, wasBlocks)
    requires Put(was, wasBlocks, inode, blocks, i, was[i].size, was[i].size + |src|, src)
    ensures Clean(inode, blocks)
  {
    forall j, x | 0 <= j < |inode| && inode[j].size <= x < MAXFILE * BSIZE ensures ByteAt(inode, blocks, j, x) == 0 {
      assert ByteAt(inode, blocks, j, x) == ByteAt(was, wasBlocks, j, x);
    }
  }

  lemma SameClean(was: seq<Dinode>, inode: seq<Dinode>, blocks: seq<Block>, i: nat, d: Dinode)
    requires i < |was| && Clean(was, blocks) && inode == was[i := d] && d.addrs == was[i].addrs && d.size >= was[i].size
    ensures Clean(inode, blocks)
  {
    forall j, x | 0 <= j < |inode| && inode[j].size <= x < MAXFILE * BSIZE ensures ByteAt(inode, blocks, j, x) == 0 {
      assert ByteAt(inode, blocks, j, x) == ByteAt(was, blocks, j, x);
    }
  }

  /** An empty file in place of a free inode changes no contents. */
  lemma SameFiles(was: seq<Dinode>, inode: seq<Dinode>, blocks: seq<Block>, i: nat, files: seq<seq<byte>>)
    requires i < |was| == |inode| && Files(was, blocks, files) && was[i].size == 0 == inode[i].size
    requires forall j | 0 <= j < |was| && j != i :: inode[j] == was[j]
    ensures Files(inode, blocks, files)
  {
    forall j | 0 <= j < |inode| ensures inode[j].size <= MAXFILE * BSIZE && Contents(inode, blocks, j) == files[j] {
      var f := files[j];
      assert f == Contents(was, blocks, j);
      BytesAre(was, blocks, j, was[j].size);
      BytesAre(inode, blocks, j, inode[j].size);
      assert forall x | 0 <= x < inode[j].size :: ByteAt(inode, blocks, j, x) == ByteAt(was, blocks, j, x);
      assert Contents(inode, blocks, j) == Contents(was, blocks, j);
    }
  }

  lemma Appended(was: seq<Dinode>, wasBlocks: seq<Block>, inode: seq<Dinode>, blocks: seq<Block>, i: nat,
                 src: seq<byte>, files: seq<seq<byte>>)
    requires i < |was| && Files(was, wasBlocks, files)
    requires Put(was, wasBlocks, inode, blocks, i, was[i].size, was[i].size + |src|, src)
    requires Sized(was, wasBlocks) && Sized(inode, blocks)
    ensures Files(inode, blocks, files[i := files[i] + src])
  {
    PutContents(was, wasBlocks, inode, blocks, i, was[i].size, was[i].size + |src|, src);
    assert src[..|src|] == src && files[i] == Contents(was, wasBlocks, i);
    forall j | 0 <= j < |inode|
      ensures inode[j].size <= MAXFILE * BSIZE && Contents(inode, blocks, j) == files[i := files[i] + src][j]
    {
      if j != i { assert files[j] == Contents(was, wasBlocks, j); }
    }
  }

  /** balloc: the first `used` bits set, all of them in the first block of the bitmap. False is its
      failed assertion. */
  method Balloc(used: nat, size: nat) returns (ok: bool, bits: seq<bv8>)
    requires used <= 8 * size
    ensures ok <==> used < BPB
    ensures ok ==> |bits| == size && forall b: nat | b < 8 * size :: Test(bits, b) <==> b < used
  {
    bits := seq(size, i => 0);
    if used >= BPB { return false, bits; }
    var i := 0;
    while i < used
      invariant 0 <= i <= used && |bits| == size
      invariant forall b: nat | b < 8 * size :: Test(bits, b) <==> b < i
    {
      forall b: nat | b < 8 * size ensures Test(Set(bits, i), b) <==> b < i + 1 {
        SetTest(bits, i, b);
      }
      bits := Set(bits, i);
      i := i + 1;
    }
    ok := true;
  }

  function RoundUp(size: nat): (r: nat)
    ensures r > size
  {
    (size / BSIZE + 1) * BSIZE
  }

  /** Rounding the root's size up leaves all its blocks below the size allocated exactly when
      the size was not a multiple of BSIZE. */
  lemma RoundUpIff(inode: seq<Dinode>, blocks: seq<Block>, i: nat)
    requires i < |inode| && inode[i].kind != 0 && FileSized(inode, blocks, i) && Tight(inode, blocks, i, inode[i].size)
    ensures
      var d: Dinode := inode[i].(size := RoundUp(inode[i].size));
      FileSized(inode[i := d], blocks, i) <==> inode[i].size % BSIZE != 0
  {
    var size := inode[i].size;
    var d: Dinode := inode[i].(size := RoundUp(size));
    var n := size / BSIZE;
    var inode' := inode[i := d];
    assert size == n * BSIZE + size % BSIZE;
    assert forall m | 0 <= m < MAXFILE :: Addr(inode', blocks, i, m) == Addr(inode, blocks, i, m);
    if size % BSIZE != 0 {
      forall m | 0 <= m < MAXFILE && m * BSIZE < d.size ensures Addr(inode', blocks, i, m) != 0 {
        assert m * BSIZE < size;
      }
    } else if n < MAXFILE {
      assert n * BSIZE < d.size && Addr(inode', blocks, i, n) == 0;
    }
  }

  /** There is room for these files, and each is small enough. */
  ghost predicate Fitting(g: Geometry, fs: seq<seq<byte>>)
  {
    g.start + Total(fs) <= g.size && forall j | 0 <= j < |fs| :: |fs[j]| <= MAXFILE * BSIZE
  }

  /** The blocks that no file has are free. */
  lemma RoomLeft(g: Geometry, bits: seq<bv8>, owner: Owners, f: nat)
    requires Marked(g, bits, owner) && g.start <= f <= g.size && forall b :: b in owner <==> g.start <= b < f
    ensures |Zeros(bits, g.size)| == g.size - f
  {
    assert Zeros(bits, g.size) == Range(f, g.size);
  }

  /** As ialloc makes it: one link, and mode 7. */
  predicate IsNew(d: Dinode, kind: int) { d == Inode(kind, 0, 0, 1, d.size, d.addrs, 7) }

  class Image {
    const g: Geometry
    var blocks: seq<Block>
    var inode: seq<Dinode>
    var freeinode: nat
    var freeblock: nat
    ghost var owner: Owners
    ghost var files: seq<seq<byte>>

    /** The blocks handed out are the owned ones, and the rest is still zero. */
    ghost predicate Valid()
      reads this
    {
      && Owned(g, inode, blocks, owner) && Sized(inode, blocks)
      && g.start <= freeblock <= g.size && 1 <= freeinode <= |inode|
      && (forall b :: b in owner <==> g.start <= b < freeblock)
      && (forall b | freeblock <= b < |blocks| :: blocks[b] == ZERO)
      && (forall k | freeinode <= k < |inode| :: inode[k] == EMPTY)
    }

    /** One new block for a direct slot ... */
    method NewDirect(i: nat, n: nat) returns (x: nat)
      requires Valid() && i < |inode| && n < NDIRECT && inode[i].kind != 0 && i < freeinode
      requires Addr(inode, blocks, i, n) == 0 && freeblock < g.size
      modifies this`inode, this`freeblock, this`owner
      ensures |inode| == |old(inode)|
      ensures 0 != x == Addr(inode, blocks, i, n) && x < |blocks| && blocks[x] == ZERO
      ensures Frame(old(inode), blocks, inode, blocks, i, n)
      ensures TableAddr(inode, i) == old(TableAddr(inode, i))
      ensures inode == old(inode)[i := old(inode)[i].(addrs := inode[i].addrs)]
      ensures freeblock == old(freeblock) + 1
      ensures Valid()
    {
      x := freeblock;
      LinkDirect(g, inode, blocks, owner, i, n, x);
      assert blocks[x := ZERO] == blocks;
      inode := inode[i := inode[i].(addrs := inode[i].addrs[n := x])];
      StaysSized(old(inode), blocks, inode, blocks, i, n);
      owner := owner[x := Nth(i, n)];
      freeblock := freeblock + 1;
    }

    /** ... for the indirect block ... */
    method NewTable(i: nat)
      requires Valid() && i < |inode| && inode[i].kind != 0 && i < freeinode
      requires TableAddr(inode, i) == 0 && freeblock < g.size
      modifies this`inode, this`freeblock, this`owner
      ensures |inode| == |old(inode)| && TableAddr(inode, i) != 0
      ensures Frame(old(inode), blocks, inode, blocks, i, MAXFILE)
      ensures inode == old(inode)[i := old(inode)[i].(addrs := inode[i].addrs)]
      ensures freeblock == old(freeblock) + 1
      ensures Valid()
    {
      ZeroWords();
      var x := freeblock;
      LinkTable(g, inode, blocks, owner, i, x, ZERO);
      assert blocks[x := ZERO] == blocks;
      inode := inode[i := inode[i].(addrs := inode[i].addrs[NDIRECT := x])];
      StaysSized(old(inode), blocks, inode, blocks, i, MAXFILE);
      owner := owner[x := Table(i)];
      freeblock := freeblock + 1;
    }

    /** ... and for an entry of it. */
    method NewEntry(i: nat, n: nat) returns (x: nat)
      requires Valid() && i < |inode| && NDIRECT <= n < MAXFILE && inode[i].kind != 0 && i < freeinode
      requires TableAddr(inode, i) != 0 && Addr(inode, blocks, i, n) == 0 && freeblock < g.size
      modifies this`blocks, this`freeblock, this`owner
      ensures |blocks| == |old(blocks)|
      ensures 0 != x == Addr(inode, blocks, i, n) && x < |blocks| && blocks[x] == ZERO
      ensures Frame(inode, old(blocks), inode, blocks, i, n)
      ensures freeblock == old(freeblock) + 1
      ensures Valid()
    {
      x := freeblock;
      LinkEntry(g, inode, blocks, owner, i, n, x);
      var t := inode[i].addrs[NDIRECT];
      assert blocks[x := ZERO] == blocks;
      blocks := blocks[t := PutWord(blocks[t], n - NDIRECT, x)];
      assert inode == inode[i := inode[i].(addrs := inode[i].addrs)];
      StaysSized(inode, old(blocks), inode, blocks, i, n);
      owner := owner[x := Nth(i, n)];
      freeblock := freeblock + 1;
    }

    /** iappend's block for file block n, through the indirect block ... */
    method FindIndirect(i: nat, n: nat) returns (ok: bool, x: nat)
      requires Valid() && i < freeinode && NDIRECT <= n < MAXFILE && inode[i].kind != 0 && TableAddr(inode, i) != 0
      modifies this`blocks, this`freeblock, this`owner
      ensures |blocks| == |old(blocks)|
      ensures ok <==>
        freeblock <= g.size && old(freeblock) + (if old(Addr(inode, blocks, i, n)) == 0 then 1 else 0) <= g.size
      ensures freeblock == old(freeblock) + if ok && old(Addr(inode, blocks, i, n)) == 0 then 1 else 0
      ensures ok ==>
        0 != x == Addr(inode, blocks, i, n) && x < |blocks| && Frame(inode, old(blocks), inode, blocks, i, n)
      ensures ok ==> if old(Addr(inode, blocks, i, n)) != 0 then blocks == old(blocks) else blocks[x] == ZERO
      ensures Valid()
    {
      ok, x := true, 0;
      var t := inode[i].addrs[NDIRECT];
      assert TableOk(inode, owner, i) && BlockOk(g, inode, blocks, owner, t);
      assert NthOk(inode, blocks, owner, i, n);
      if Word(blocks[t], n - NDIRECT) == 0 {
        if freeblock == g.size { return false, 0; }
        x := NewEntry(i, n);
      }
      x := Word(blocks[t], n - NDIRECT);
      assert NthOk(inode, blocks, owner, i, n) && BlockOk(g, inode, blocks, owner, x);
    }

    /** ... or not. False if the image is full. */
    method FindBlock(i: nat, n: nat) returns (ok: bool, x: nat)
      requires Valid() && i < freeinode && n < MAXFILE && inode[i].kind != 0
      modifies this`blocks, this`inode, this`freeblock, this`owner
      ensures |inode| == |old(inode)| && |blocks| == |old(blocks)|
      ensures ok <==> old(freeblock) + old(Missing(inode, blocks, i, n, n + 1)) <= g.size
      ensures if ok then freeblock == old(freeblock) + old(Missing(inode, blocks, i, n, n + 1)) else freeblock == g.size
      ensures ok && NDIRECT <= n ==> TableAddr(inode, i) != 0
      ensures ok && (n < NDIRECT || old(TableAddr(inode, i)) != 0) ==> TableAddr(inode, i) == old(TableAddr(inode, i))
      ensures ok ==>
        0 != x == Addr(inode, blocks, i, n) && x < |blocks| && Frame(old(inode), old(blocks), inode, blocks, i, n)
      ensures ok ==> inode == old(inode)[i := old(inode)[i].(addrs := inode[i].addrs)]
      ensures ok ==>
        if old(Addr(inode, blocks, i, n)) != 0 then inode == old(inode) && blocks == old(blocks) else blocks[x] == ZERO
      ensures Valid()
    {
      ok, x := true, 0;
      MissingOne(inode, blocks, i, n);
      assert NthOk(inode, blocks, owner, i, n);
      if n < NDIRECT {
        if inode[i].addrs[n] == 0 {
          if freeblock == g.size { return false, 0; }
          x := NewDirect(i, n);
        }
        x := inode[i].addrs[n];
        assert NthOk(inode, blocks, owner, i, n) && BlockOk(g, inode, blocks, owner, x);
      } else {
        if inode[i].addrs[NDIRECT] == 0 {
          if freeblock == g.size { return false, 0; }
          NewTable(i);
          assert Kept(old(inode), old(blocks), inode, blocks, i, n);
        }
        ghost var inode1, blocks1 := inode, blocks;
        ok, x := FindIndirect(i, n);
        if ok { FrameTrans(old(inode), old(blocks), inode1, blocks1, inode, blocks, i, n); }
      }
    }

    /** One turn of iappend's loop: bytes that lie in one block. */
    method AppendTurn(i: nat, o: nat, n: nat, data: seq<byte>) returns (ok: bool)
      requires Valid() && i < freeinode && inode[i].kind != 0
      requires n == o / BSIZE && 0 < |data| && o % BSIZE + |data| <= BSIZE && o + |data| <= MAXFILE * BSIZE
      modifies this`blocks, this`inode, this`freeblock, this`owner
      ensures |inode| == |old(inode)| && |blocks| == |old(blocks)|
      ensures ok <==> old(freeblock) + old(Missing(inode, blocks, i, n, n + 1)) <= g.size
      ensures if ok then freeblock == old(freeblock) + old(Missing(inode, blocks, i, n, n + 1)) else freeblock == g.size
      ensures ok ==> ChunkPut(old(inode), old(blocks), inode, blocks, i, o, n, data)
      ensures Valid()
    {
      InRange(g, inode, blocks, owner);
      var x: nat;
      ok, x := FindBlock(i, n);
      if !ok { return; }
      ghost var blocks1 := blocks;
      var b := Patch(blocks[x], o, data);
      WriteBlock(g, inode, blocks, owner, i, n, b);
      assert NthOk(inode, blocks, owner, i, n);
      blocks := blocks[x := b];
      assert inode == inode[i := inode[i].(addrs := inode[i].addrs)];
      StaysSized(inode, blocks1, inode, blocks, i, n);
      FrameTrans(old(inode), old(blocks), inode, blocks1, inode, blocks, i, n);
      ChunkBytes(g, old(inode), old(blocks), inode, blocks1, blocks, i, o, data);
    }

    /** One turn in terms of the whole append. */
    method AppendStep(i: nat, src: seq<byte>, off: nat, done: nat, ghost was: seq<Dinode>, ghost wasBlocks: seq<Block>,
                      ghost room: nat) returns (ok: bool, m: nat)
      requires Valid() && i < freeinode && inode[i].kind != 0 && done < |src| && (off + done) / BSIZE < MAXFILE
      requires Appending(was, wasBlocks, room, inode, blocks, g.size - freeblock, i, off, done, src)
      modifies this`blocks, this`inode, this`freeblock, this`owner
      ensures |inode| == |old(inode)|
      ensures ok ==> 0 < m <= |src| - done && inode[i].kind == old(inode)[i].kind
      ensures ok ==>
        freeblock <= g.size && Appending(was, wasBlocks, room, inode, blocks, g.size - freeblock, i, off, done + m, src)
      ensures !ok ==> freeblock == g.size && Short(was, wasBlocks, room, i, off / BSIZE, EndBlock(off, |src|))
      ensures Valid()
    {
      hide Appending, ChunkPut, Spends, Short, EndBlock, Missing, Gaps;
      var o := off + done;
      var n := o / BSIZE;
      m := Chunk(o, |src| - done);
      ghost var inode1, blocks1, room1 := inode, blocks, g.size - freeblock;
      assert FileSized(inode, blocks, i);
      ok := AppendTurn(i, o, n, src[done..done + m]);
      if ok {
        AppendedTurn(was, wasBlocks, room, inode1, blocks1, room1, inode, blocks, g.size - freeblock, i, off, done, n,
                     src[done..done + m], src);
        ChunkKind(inode1, blocks1, inode, blocks, i, o, n, src[done..done + m]);
      } else {
        AppendShort(was, wasBlocks, room, inode1, blocks1, room1, i, off, done, n, src);
      }
    }

    /** iappend's loop. False if the image is full or the file too big. */
    method AppendLoop(i: nat, src: seq<byte>) returns (ok: bool)
      requires Valid() && i < freeinode && inode[i].kind != 0 && AllTight(inode, blocks, i)
      requires Tight(inode, blocks, i, inode[i].size)
      requires inode[i].size <= MAXFILE * BSIZE
      modifies this`blocks, this`inode, this`freeblock, this`owner
      ensures |inode| == |old(inode)|
      ensures ok ==> Appending(old(inode), old(blocks), g.size - old(freeblock), inode, blocks, g.size - freeblock, i,
                               old(inode)[i].size, |src|, src)
      ensures ok ==> old(inode)[i].size + |src| <= MAXFILE * BSIZE
      ensures !ok && old(inode)[i].size + |src| <= MAXFILE * BSIZE ==>
        Short(old(inode), old(blocks), g.size - old(freeblock), i, old(inode)[i].size / BSIZE,
              EndBlock(old(inode)[i].size, |src|))
      ensures Valid()
    {
      hide Appending, Spends, Short, EndBlock, Tight, AllTight;
      AppendStart(inode, blocks, g.size - freeblock, i, src);
      ghost var off := inode[i].size;
      var o, done := inode[i].size, 0;
      while done < |src|
        invariant 0 <= done <= |src| && o == off + done <= MAXFILE * BSIZE && |inode| == |old(inode)|
        invariant inode[i].kind != 0
        invariant Appending(old(inode), old(blocks), g.size - old(freeblock), inode, blocks, g.size - freeblock, i,
                            off, done, src)
        invariant Valid()
      {
        var n := o / BSIZE;
        if n >= MAXFILE { return false; }
        var m;
        ok, m := AppendStep(i, src, o - done, done, old(inode), old(blocks), g.size - old(freeblock));
        if !ok { return; }
        AppendIn(old(inode), old(blocks), g.size - old(freeblock), inode, blocks, g.size - freeblock, i, off,
                 done + m, src);
        o, done := o + m, done + m;
      }
      ok := true;
    }

    /** The file is as long as its blocks go. */
    lemma Grow(i: nat, o: nat)
      requires Valid() && i < |inode| && inode[i].kind != 0 && Covered(inode, blocks, i, o) && o <= MAXFILE * BSIZE
      requires AllTight(inode, blocks, i) && Tight(inode, blocks, i, o)
      ensures
        var inode' := inode[i := inode[i].(size := o)];
        && Owned(g, inode', blocks, owner) && Sized(inode', blocks) && AllTight(inode', blocks, |inode|)
        && OnlyBytes(inode, blocks, inode', blocks, i, 0, 0)
    {
      var d: Dinode := inode[i].(size := o);
      SamePlaces(g, inode, blocks, owner, i, d);
      var inode' := inode[i := d];
      forall j | 0 <= j < |inode| ensures FileSized(inode', blocks, j) && Tight(inode', blocks, j, inode'[j].size) {
        assert FileSized(inode, blocks, j);
        assert j != i ==> Tight(inode, blocks, j, inode[j].size);
      }
    }

    ghost predicate Consistent()
      reads this
    {
      && Valid() && AllTight(inode, blocks, |inode|) && Clean(inode, blocks)
      && Files(inode, blocks, files) && freeblock == g.start + Total(files)
    }

    /** False exactly if the image is too small or the file too big; the image is then of no use. */
    method Iappend(i: nat, src: seq<byte>) returns (ok: bool)
      requires Consistent() && i < freeinode && inode[i].kind != 0
      modifies this`blocks, this`inode, this`freeblock, this`owner, this`files
      ensures ok <==> Fitting(g, old(files)[i := old(files)[i] + src])
      ensures ok ==>
        && files == old(files)[i := old(files)[i] + src] && i < |inode| == |old(inode)|
        && inode[i] == old(inode)[i].(size := inode[i].size, addrs := inode[i].addrs)
      ensures ok ==> forall j | 0 <= j < |inode| && j != i :: inode[j] == old(inode)[j]
      ensures ok ==> Consistent()
    {
      hide Appending, Short, EndBlock, Needs, Missing, Total, Spends, BlocksFor, Fitting, Tight, FileSized, Contents,
        Written;
      HoldsToAppend(i, src);
      var size := inode[i].size + |src|;
      ok := AppendLoop(i, src);
      if !ok {
        if size <= MAXFILE * BSIZE {
          FileShort(old(inode), old(blocks), g.size - old(freeblock), i, old(inode)[i].size, |src|);
        }
        return;
      }
      ghost var inode1 := inode;
      AppendEnd(old(inode), old(blocks), g.size - old(freeblock), inode, blocks, g.size - freeblock, i, src);
      Grow(i, size);
      inode := inode[i := inode[i].(size := size)];
      WrittenPut(old(inode), old(blocks), inode1, inode, blocks, i, old(inode)[i].size, src);
      Appended(old(inode), old(blocks), inode, blocks, i, src, files);
      PutClean(old(inode), old(blocks), inode, blocks, i, src);
      files := files[i := files[i] + src];
    }

    /** An image of zeroes. */
    constructor (g: Geometry, ninodes: nat)
      requires 0 < g.start <= g.size <= TWO32 && 1 <= ninodes
      ensures this.g == g && freeinode == 1 && |inode| == ninodes && Consistent()
      ensures |files| == ninodes && forall j | 0 <= j < ninodes :: files[j] == []
    {
      this.g := g;
      blocks := seq(g.size, b => ZERO);
      inode := seq(ninodes, i => EMPTY);
      freeinode, freeblock, owner := 1, g.start, map[];
      files := seq(ninodes, i => []);
      new;
      forall i, n | 0 <= i < |inode| && 0 <= n < MAXFILE ensures Addr(inode, blocks, i, n) == 0 {
      }
      assert forall i, n | 0 <= i < |inode| && 0 <= n < MAXFILE :: NthOk(inode, blocks, owner, i, n);
      assert forall i | 0 <= i < |inode| :: TableOk(inode, owner, i);
      assert forall i | 0 <= i < |inode| :: Tight(inode, blocks, i, inode[i].size);
      TotalNone(files);
    }

    /** The next inode, with one link and all permissions. */
    method Ialloc(kind: int) returns (i: nat)
      requires Consistent() && freeinode < |inode| && kind != 0
      modifies this`inode, this`freeinode
      ensures i == old(freeinode) && freeinode == i + 1
      ensures inode == old(inode)[i := Inode(kind, 0, 0, 1, 0, EMPTY.addrs, 7)] && old(inode)[i] == EMPTY
      ensures files[i] == []
      ensures Consistent()
    {
      i := freeinode;
      var d: Dinode := Inode(kind, 0, 0, 1, 0, EMPTY.addrs, 7);
      SamePlaces(g, inode, blocks, owner, i, d);
      inode := inode[i := d];
      freeinode := freeinode + 1;
      forall j | 0 <= j < |inode| ensures FileSized(inode, blocks, j) && Tight(inode, blocks, j, inode[j].size) {
        assert FileSized(old(inode), blocks, j) && Tight(old(inode), blocks, j, old(inode)[j].size);
      }
      SameFiles(old(inode), inode, blocks, i, files);
      SameClean(old(inode), inode, blocks, i, d);
    }

    lemma InBounds()
      requires Consistent()
      ensures freeinode <= |inode| == |files|
    {
    }

    /** The image can hold the longer file exactly if it has the blocks to append. */
    lemma HoldsToAppend(i: nat, src: seq<byte>)
      requires Consistent() && i < freeinode
      ensures i < |inode| == |files| && |files[i]| == inode[i].size <= MAXFILE * BSIZE && FileSized(inode, blocks, i)
      ensures AllTight(inode, blocks, i) && Tight(inode, blocks, i, inode[i].size)
      ensures
        var size := inode[i].size + |src|;
        var longer := files[i := files[i] + src];
        if size > MAXFILE * BSIZE then !Fitting(g, longer)
        else
          var need := Needs(inode, blocks, i, inode[i].size, |src|);
          Total(longer) == Total(files) + need && (Fitting(g, longer) <==> need <= g.size - freeblock)
    {
      hide Needs, Total, BlocksFor, Contents, Clean, Owned;
      forall j | 0 <= j < |files| ensures |files[j]| == inode[j].size <= MAXFILE * BSIZE { var f := files[j]; }
      assert Tight(inode, blocks, i, inode[i].size) && FileSized(inode, blocks, i);
      var longer := files[i := files[i] + src];
      assert longer[i] == files[i] + src;
      TotalUpdate(files, i, files[i] + src);
      if inode[i].size + |src| <= MAXFILE * BSIZE { NeedsToAppend(inode, blocks, i, |src|); }
    }

    lemma HoldsLess(a: seq<seq<byte>>, b: seq<seq<byte>>)
      requires |a| == |b| && (forall j | 0 <= j < |a| :: |a[j]| <= |b[j]|) && Fitting(g, b)
      ensures Fitting(g, a)
    {
      TotalMore(a, b);
    }

    lemma HoldsNow()
      requires Consistent()
      ensures Fitting(g, files)
    {
      forall j | 0 <= j < |files| ensures |files[j]| <= MAXFILE * BSIZE {
        var f := files[j];
        assert inode[j].size <= MAXFILE * BSIZE && f == Contents(inode, blocks, j);
      }
    }

    /** The loop that copies a file in, a buffer at a time. */
    method CopyIn(i: nat, data: seq<byte>) returns (ok: bool)
      requires Consistent() && i < freeinode && inode[i].kind != 0 && files[i] == []
      modifies this`blocks, this`inode, this`freeblock, this`owner, this`files
      ensures ok <==> Fitting(g, old(files)[i := data])
      ensures ok ==> files == old(files)[i := data] && |inode| == |old(inode)|
      ensures ok ==> inode[i] == old(inode)[i].(size := inode[i].size, addrs := inode[i].addrs)
      ensures ok ==> forall j | 0 <= j < |inode| && j != i :: inode[j] == old(inode)[j]
      ensures ok ==> Consistent()
    {
      hide Fitting, Image.Consistent;
      InBounds();
      ghost var was := files;
      var k := 0;
      while k < |data|
        invariant 0 <= k <= |data| && |inode| == |old(inode)|
        invariant inode[i] == old(inode)[i].(size := inode[i].size, addrs := inode[i].addrs)
        invariant files == was[i := data[..k]]
        invariant forall j | 0 <= j < |inode| && j != i :: inode[j] == old(inode)[j]
        invariant Consistent()
      {
        var cc := if |data| - k < BSIZE then |data| - k else BSIZE;
        assert data[..k] + data[k..k + cc] == data[..k + cc];
        assert files[i := files[i] + data[k..k + cc]] == was[i := data[..k + cc]];
        ok := Iappend(i, data[k..k + cc]);
        if !ok {
          if Fitting(g, was[i := data]) { HoldsLess(was[i := data[..k + cc]], was[i := data]); }
          return;
        }
        k := k + cc;
      }
      assert data[..k] == data;
      HoldsNow();
      ok := true;
    }

    /** One argument of mkfs: an inode, its name in the root directory, its bytes. */
    method AddFile(root: nat, entry: seq<byte>, data: seq<byte>) returns (ok: bool)
      requires Consistent() && root < freeinode && inode[root].kind != 0
      modifies this`blocks, this`inode, this`freeinode, this`freeblock, this`owner, this`files
      ensures ok <==>
        && old(freeinode) < |old(inode)|
        && Fitting(g, old(files)[root := old(files)[root] + entry][old(freeinode) := data])
      ensures ok ==> freeinode == old(freeinode) + 1 && old(freeinode) < |inode| == |old(inode)|
      ensures ok ==> files == old(files)[root := old(files)[root] + entry][old(freeinode) := data]
      ensures ok ==>
        && inode[root] == old(inode)[root].(size := inode[root].size, addrs := inode[root].addrs)
        && IsNew(inode[old(freeinode)], T_FILE)
        && forall j | 0 <= j < |inode| && j != root && j != old(freeinode) :: inode[j] == old(inode)[j]
      ensures ok ==> Consistent()
    {
      hide Fitting, Image.Consistent;
      InBounds();
      if freeinode == |inode| { return false; }
      ghost var was := files;
      var i := Ialloc(T_FILE);
      ghost var mid := was[root := was[root] + entry];
      ok := Iappend(root, entry);
      if !ok {
        if Fitting(g, mid[i := data]) { HoldsLess(mid, mid[i := data]); }
        return;
      }
      ok := CopyIn(i, data);
    }

    method MakeRoot(dots: seq<byte>) returns (ok: bool)
      requires Consistent() && freeinode == ROOTINO && freeinode < |inode| && files[ROOTINO] == []
      modifies this`blocks, this`inode, this`freeinode, this`freeblock, this`owner, this`files
      ensures ok <==> Fitting(g, old(files)[ROOTINO := dots])
      ensures ok ==> Consistent() && freeinode == 2 <= |inode| == |old(inode)| && IsNew(inode[ROOTINO], T_DIR)
      ensures ok ==> files == old(files)[ROOTINO := dots]
    {
      var root := Ialloc(T_DIR);
      assert [] + dots == dots;
      ok := Iappend(root, dots);
    }

    /** The root and the first k arguments are in. */
    ghost predicate Loaded(dots: seq<byte>, list: seq<(seq<byte>, seq<byte>)>, k: nat)
      reads this
    {
      && Consistent() && k <= |list| && freeinode == 2 + k <= |inode| && IsNew(inode[ROOTINO], T_DIR)
      && (forall j | 2 <= j < 2 + k :: IsNew(inode[j], T_FILE))
      && files == Loads(|inode|, dots, list, k)
    }

    method AddNext(dots: seq<byte>, list: seq<(seq<byte>, seq<byte>)>, k: nat) returns (ok: bool)
      requires Loaded(dots, list, k) && k < |list|
      modifies this`blocks, this`inode, this`freeinode, this`freeblock, this`owner, this`files
      ensures ok <==> 2 + k < |old(inode)| && Fitting(g, Loads(|old(inode)|, dots, list, k + 1))
      ensures ok ==> |inode| == |old(inode)| && Loaded(dots, list, k + 1)
    {
      hide Fitting;
      if 2 + k < |inode| { LoadsStep(|inode|, dots, list, k); }
      ok := AddFile(ROOTINO, list[k].0, list[k].1);
    }

    /** The root directory, then each argument. */
    method Populate(dots: seq<byte>, list: seq<(seq<byte>, seq<byte>)>) returns (ok: bool)
      requires Consistent() && freeinode == ROOTINO && freeinode < |inode|
      requires (forall j | 0 <= j < |files| :: files[j] == [])
      modifies this`blocks, this`inode, this`freeinode, this`freeblock, this`owner, this`files
      ensures ok <==> 2 + |list| <= |old(inode)| && Fitting(g, Loads(|old(inode)|, dots, list, |list|))
      ensures ok ==> |inode| == |old(inode)| && Loaded(dots, list, |list|)
    {
      hide Fitting, Loads, Image.Consistent;
      InBounds();
      ghost var n := |inode|;
      LoadsStart(files, dots, list);
      ok := MakeRoot(dots);
      if !ok {
        LoadsLater(n, dots, list, 0);
        return;
      }
      var k := 0;
      while k < |list|
        invariant 0 <= k <= |list| && |inode| == n && Loaded(dots, list, k)
      {
        ok := AddNext(dots, list, k);
        if !ok {
          LoadsLater(n, dots, list, k + 1);
          return;
        }
        k := k + 1;
      }
      HoldsNow();
      ok := true;
    }

    lemma RestEmpty()
      requires Consistent()
      ensures forall j | freeinode <= j < |inode| :: inode[j] == EMPTY
    {
    }

    /** What does not hold a part of the arguments does not hold all. */
    lemma LoadsLater(n: nat, dots: seq<byte>, list: seq<(seq<byte>, seq<byte>)>, k: nat)
      requires k <= |list| && n >= 2
      ensures 2 + |list| <= n && Fitting(g, Loads(n, dots, list, |list|)) ==>
        2 + k <= n && Fitting(g, Loads(n, dots, list, k))
    {
      if 2 + |list| <= n && Fitting(g, Loads(n, dots, list, |list|)) {
        NamesMore(list, k);
        assert list[..|list|] == list;
        HoldsLess(Loads(n, dots, list, k), Loads(n, dots, list, |list|));
      }
    }

    /** The last steps of mkfs: the root's size, and the bitmap. */
    method Finish(root: nat, nbytes: nat) returns (ok: bool, bits: seq<bv8>)
      requires Consistent() && root < |inode| && inode[root].kind != 0 && g.size <= 8 * nbytes
      modifies this`inode
      ensures |files| == |inode| == |old(inode)|
      ensures forall j | 0 <= j < |inode| && j != root ::
        inode[j].size <= MAXFILE * BSIZE && Contents(inode, blocks, j) == files[j]
      ensures inode == old(inode)[root := old(inode)[root].(size := RoundUp(|files[root]|))]
      ensures inode[root].size <= MAXFILE * BSIZE ==>
        Contents(inode, blocks, root) == files[root] + Padding(RoundUp(|files[root]|) - |files[root]|)
      ensures Owned(g, inode, blocks, owner)
      ensures Sized(inode, blocks) <==> |files[root]| % BSIZE != 0
      ensures ok <==> g.start + Total(files) < BPB
      ensures ok ==> Marked(g, bits, owner)
      ensures forall b :: b in owner <==> g.start <= b < g.start + Total(files)
    {
      hide Contents, RoundUp, Padding, Total, Tight;
      var f := inode[root].size;
      assert |files[root]| == f;
      var d: Dinode := inode[root].(size := RoundUp(f));
      SamePlaces(g, inode, blocks, owner, root, d);
      assert FileSized(inode, blocks, root) && Tight(inode, blocks, root, f);
      RoundUpIff(inode, blocks, root);
      inode := inode[root := d];
      FinishSized(old(inode), inode, blocks, root);
      forall j | 0 <= j < |inode| && j != root
        ensures inode[j].size <= MAXFILE * BSIZE && Contents(inode, blocks, j) == files[j]
      {
        ghost var c := files[j];
        SameContents(old(inode), inode, blocks, j);
      }
      if inode[root].size <= MAXFILE * BSIZE { PaddedContents(old(inode), inode, blocks, root); }
      ok, bits := Balloc(freeblock, nbytes);
    }
  }

  const T_DIR := 1
  const T_FILE := 2
  const ROOTINO := 1
  const DIRENT := 16

  ghost function Padding(n: nat): (z: seq<byte>)
    ensures |z| == n && forall x | 0 <= x < n :: z[x] == 0
  {
    seq(n, x => 0)
  }

  function Names(list: seq<(seq<byte>, seq<byte>)>): seq<byte>
  {
    if list == [] then [] else Names(list[..|list| - 1]) + list[|list| - 1].0
  }

  lemma {:induction false} NamesMore(list: seq<(seq<byte>, seq<byte>)>, k: nat)
    requires k <= |list|
    ensures |Names(list[..k])| <= |Names(list)|
    decreases |list|
  {
    if k < |list| {
      var rest := list[..|list| - 1];
      NamesMore(rest, k);
      assert rest[..k] == list[..k];
    } else {
      assert list[..k] == list;
    }
  }

  lemma {:induction false} NamesLength(list: seq<(seq<byte>, seq<byte>)>, n: nat)
    requires forall k | 0 <= k < |list| :: |list[k].0| == n
    ensures |Names(list)| == |list| * n
  {
    if list != [] {
      NamesLength(list[..|list| - 1], n);
      assert |list| * n == (|list| - 1) * n + n;
    }
  }

  /** The root's size is a multiple of BSIZE exactly if its entries, two and one per file, fill
      whole blocks. */
  lemma RootFills(dots: seq<byte>, list: seq<(seq<byte>, seq<byte>)>)
    requires |dots| == 2 * DIRENT && forall k | 0 <= k < |list| :: |list[k].0| == DIRENT
    ensures (|dots| + |Names(list)|) % BSIZE == 0 <==> (2 + |list|) % (BSIZE / DIRENT) == 0
  {
    NamesLength(list, DIRENT);
  }

  /** The files of an image with the root directory and the first k arguments. */
  ghost function Loads(n: nat, dots: seq<byte>, list: seq<(seq<byte>, seq<byte>)>, k: nat): (r: seq<seq<byte>>)
    requires k <= |list|
    ensures |r| == n
  {
    seq(n, j requires 0 <= j < n =>
      if j == ROOTINO then dots + Names(list[..k]) else if 2 <= j < 2 + k then list[j - 2].1 else [])
  }

  lemma LoadsStart(files: seq<seq<byte>>, dots: seq<byte>, list: seq<(seq<byte>, seq<byte>)>)
    requires |files| >= 2 && forall j | 0 <= j < |files| :: files[j] == []
    ensures files[ROOTINO := dots] == Loads(|files|, dots, list, 0)
  {
    var r := Loads(|files|, dots, list, 0);
    assert Names(list[..0]) == [];
    assert r[ROOTINO] == dots + Names(list[..0]) == dots;
    assert forall j | 0 <= j < |r| :: files[ROOTINO := dots][j] == r[j];
  }

  lemma LoadsAre(n: nat, dots: seq<byte>, list: seq<(seq<byte>, seq<byte>)>)
    requires 2 + |list| <= n
    ensures Loads(n, dots, list, |list|)[ROOTINO] == dots + Names(list)
    ensures forall k | 0 <= k < |list| :: Loads(n, dots, list, |list|)[2 + k] == list[k].1
  {
    hide Names;
    assert list[..|list|] == list;
    var r := Loads(n, dots, list, |list|);
    forall k | 0 <= k < |list| ensures r[2 + k] == list[k].1 {
      assert r[2 + k] == list[2 + k - 2].1;
    }
  }

  lemma LoadsStep(n: nat, dots: seq<byte>, list: seq<(seq<byte>, seq<byte>)>, k: nat)
    requires k < |list| && 2 + k < n
    ensures
      var f := Loads(n, dots, list, k);
      f[ROOTINO := f[ROOTINO] + list[k].0][2 + k := list[k].1] == Loads(n, dots, list, k + 1)
  {
    assert list[..k + 1][..k] == list[..k];
    assert Names(list[..k + 1]) == Names(list[..k]) + list[k].0;
    assert dots + (Names(list[..k]) + list[k].0) == dots + Names(list[..k]) + list[k].0;
    var f := Loads(n, dots, list, k);
    assert f[ROOTINO] + list[k].0 == Loads(n, dots, list, k + 1)[ROOTINO];
  }

  lemma SameContents(was: seq<Dinode>, inode: seq<Dinode>, blocks: seq<Block>, i: nat)
    requires i < |was| == |inode| && was[i] == inode[i] && was[i].size <= MAXFILE * BSIZE
    ensures Contents(inode, blocks, i) == Contents(was, blocks, i)
  {
    BytesAre(was, blocks, i, was[i].size);
    BytesAre(inode, blocks, i, inode[i].size);
    assert forall x | 0 <= x < inode[i].size :: ByteAt(inode, blocks, i, x) == ByteAt(was, blocks, i, x);
  }

  /** A larger size shows the zeroes behind the contents. */
  lemma PaddedContents(was: seq<Dinode>, inode: seq<Dinode>, blocks: seq<Block>, i: nat)
    requires i < |was| == |inode| && was[i].addrs == inode[i].addrs && was[i].size <= inode[i].size <= MAXFILE * BSIZE
    requires Clean(was, blocks)
    ensures Contents(inode, blocks, i) == Contents(was, blocks, i) + Padding(inode[i].size - was[i].size)
  {
    BytesAre(was, blocks, i, was[i].size);
    BytesAre(inode, blocks, i, inode[i].size);
    assert forall x | 0 <= x < inode[i].size :: ByteAt(inode, blocks, i, x) == ByteAt(was, blocks, i, x);
  }

  lemma FinishSized(was: seq<Dinode>, inode: seq<Dinode>, blocks: seq<Block>, i: nat)
    requires i < |was| == |inode| && Sized(was, blocks) && inode == was[i := inode[i]]
    ensures Sized(inode, blocks) <==> FileSized(inode, blocks, i)
  {
    forall j | 0 <= j < |inode| && j != i ensures FileSized(inode, blocks, j) {
      assert FileSized(was, blocks, j);
      assert forall n | 0 <= n < MAXFILE :: Addr(inode, blocks, j, n) == Addr(was, blocks, j, n);
    }
  }

  lemma AppendEnd(was: seq<Dinode>, wasBlocks: seq<Block>, room: int, inode: seq<Dinode>, blocks: seq<Block>,
                  room': int,
                  i: nat, src: seq<byte>)
    requires i < |was| && Appending(was, wasBlocks, room, inode, blocks, room', i, was[i].size, |src|, src)
    requires was[i].size + |src| <= MAXFILE * BSIZE
    ensures Written(was, wasBlocks, inode, blocks, i, was[i].size, was[i].size + |src|, src)
    ensures AllTight(inode, blocks, i) && Tight(inode, blocks, i, was[i].size + |src|)
    ensures room' == room - Needs(was, wasBlocks, i, was[i].size, |src|)
  {
    EndBlockIs(was[i].size, |src|);
    CoveredMissing(inode, blocks, i, was[i].size, |src|);
  }

  /** From inode 2 on, the files have the bytes given for them. */
  ghost predicate Given(inode: seq<Dinode>, blocks: seq<Block>, list: seq<(seq<byte>, seq<byte>)>)
  {
    2 + |list| <= |inode| && forall k {:trigger list[k]} | 0 <= k < |list| ::
      inode[2 + k].size <= MAXFILE * BSIZE && Contents(inode, blocks, 2 + k) == list[k].1
  }

  /** mkfs: an image that starts the kernel's invariants and holds the given files. `dots` are
      the entries . and .. of the root; each file comes with its directory entry. It is made exactly
      if inodes and blocks suffice, no file is too big and one bitmap block is enough. */
  method Build(g: Geometry, ninodes: nat, nbytes: nat, dots: seq<byte>, list: seq<(seq<byte>, seq<byte>)>)
    returns (ok: bool, image: Image, bits: seq<bv8>)
    requires 0 < g.start <= g.size <= TWO32 && g.size <= 8 * nbytes && 2 <= ninodes
    ensures ok <==>
      && 2 + |list| <= ninodes && Fitting(g, Loads(ninodes, dots, list, |list|))
      && g.start + Total(Loads(ninodes, dots, list, |list|)) < BPB
    ensures image.g == g && fresh(image)
    ensures ok ==> Owned(g, image.inode, image.blocks, image.owner) && Marked(g, bits, image.owner)
    ensures ok ==> (Sized(image.inode, image.blocks) <==> (|dots| + |Names(list)|) % BSIZE != 0)
    ensures ok ==> |image.inode| == ninodes && Given(image.inode, image.blocks, list)
    ensures ok ==> forall j | 2 <= j < ninodes ::
      if j < 2 + |list| then IsNew(image.inode[j], T_FILE) else image.inode[j] == EMPTY
    ensures ok ==> forall b :: b in image.owner <==> g.start <= b < g.start + Total(Loads(ninodes, dots, list, |list|))
    ensures ok ==>
      var root, f := image.inode[ROOTINO], dots + Names(list);
      && IsNew(root, T_DIR) && root.size == RoundUp(|f|)
      && (root.size <= MAXFILE * BSIZE ==>
            Contents(image.inode, image.blocks, ROOTINO) == f + Padding(RoundUp(|f|) - |f|))
  {
    hide Fitting, Image.Consistent, Loads, Total, Names, Contents, Sized, Owned, Marked, RoundUp, Padding;
    image := new Image(g, ninodes);
    bits := [];
    ok := image.Populate(dots, list);
    if ok {
      LoadsAre(ninodes, dots, list);
      image.RestEmpty();
      ghost var files := image.files;
      ok, bits := image.Finish(ROOTINO, nbytes);
      forall k | 0 <= k < |list|
        ensures image.inode[2 + k].size <= MAXFILE * BSIZE && Contents(image.inode, image.blocks, 2 + k) == list[k].1
      {
        assert files[2 + k] == list[k].1;
      }
    }
  }

  lemma OnlyRoot(n: nat, dots: seq<byte>, list: seq<(seq<byte>, seq<byte>)>)
    requires 2 <= n && forall k | 0 <= k < |list| :: list[k].1 == []
    ensures Total(Loads(n, dots, list, |list|)) == BlocksFor(|dots + Names(list)|)
    ensures forall j | 0 <= j < n && j != ROOTINO :: Loads(n, dots, list, |list|)[j] == []
    ensures Loads(n, dots, list, |list|)[ROOTINO] == dots + Names(list)
  {
    hide Names, BlocksFor;
    var r := Loads(n, dots, list, |list|);
    assert list[..|list|] == list;
    forall j | 0 <= j < n && j != ROOTINO ensures r[j] == [] {
      if 2 <= j < 2 + |list| { assert r[j] == list[j - 2].1; }
    }
    var none := r[ROOTINO := []];
    TotalNone(none);
    TotalUpdate(none, ROOTINO, r[ROOTINO]);
    assert none[ROOTINO := r[ROOTINO]] == r && BlocksFor(0) == 0 by { NothingForNone(); }
  }

  lemma NothingForNone()
    ensures BlocksFor(0) == 0
  {
  }

  /** Thirty files: mkfs gives the root a size of two blocks, and it has one. */
  method ThirtyFiles() returns (ok: bool, image: Image)
    ensures ok && |image.inode| == 200 && image.inode[ROOTINO].size == 2 * BSIZE
    ensures !Sized(image.inode, image.blocks)
  {
    hide Fitting, Loads, Total, Names, Contents, Sized, Owned, Marked, Padding, Given;
    var zeroes := seq(DIRENT, _ => 0);
    var dots := seq(2 * DIRENT, _ => 0);
    var list := seq(30, _ => (zeroes, []));
    NamesLength(list, DIRENT);
    OnlyRoot(200, dots, list);
    var g := Geometry(59, 1000);
    OneBlock(g, Loads(200, dots, list, 30));
    var bits;
    ok, image, bits := Build(g, 200, 1000, dots, list);
  }

  lemma OneBlock(g: Geometry, files: seq<seq<byte>>)
    requires 2 <= |files| && |files[ROOTINO]| == BSIZE && Total(files) == BlocksFor(BSIZE) && g.start < g.size
    requires forall j | 0 <= j < |files| && j != ROOTINO :: files[j] == []
    ensures Fitting(g, files) && Total(files) == 1
  {
  }

  /** The kernel starts on what mkfs made: with its invariant, the files as given, and every block
      free that no file has. */
  method Boot(g: Geometry, ninodes: nat, nbytes: nat, dots: seq<byte>, list: seq<(seq<byte>, seq<byte>)>)
    returns (fs: Option<Fs>)
    requires 0 < g.start <= g.size <= TWO32 && g.size <= 8 * nbytes && 2 <= ninodes
    ensures fs.Some? <==>
      && 2 + |list| <= ninodes && Fitting(g, Loads(ninodes, dots, list, |list|))
      && g.start + Total(Loads(ninodes, dots, list, |list|)) < BPB && (|dots| + |Names(list)|) % BSIZE != 0
    ensures fs.Some? ==> fs.value.Valid() && |fs.value.inode| == ninodes
    ensures fs.Some? ==> fs.value.Room() == g.size - g.start - Total(Loads(ninodes, dots, list, |list|))
    ensures fs.Some? ==> Given(fs.value.inode, fs.value.blocks, list)
  {
    hide Loads, Total, Names, Given;
    var ok, image, bits := Build(g, ninodes, nbytes, dots, list);
    if !ok || (|dots| + |Names(list)|) % BSIZE == 0 { return None; }
    RoomLeft(g, bits, image.owner, g.start + Total(Loads(ninodes, dots, list, |list|)));
    var f := new Fs(g, bits, image.blocks, image.inode, image.owner);
    return Some(f);
  }
}
