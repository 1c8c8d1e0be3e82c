/** Block allocator and inode layer of fs.c, over block contents as the buffer cache shows
    them. */
module Fs {
  import opened Basics
  import opened Words
  import opened Bitmap
  import opened FsSpec
  import LogProtocol

  /** What log_write was called for. */
  datatype LogBlock = BitmapBlock(k: nat) | InodeBlock(k: nat) | DataBlock(b: nat)

  /** BBLOCK: the bitmap block that holds the bit of block b. */
  function BitmapOf(b: nat): (r: LogBlock)
  {
    BitmapBlock(b / BPB)
  }

  /** On a disk whose bitmap has one block, these are that block. */
  ghost predicate OneBitmap(g: Geometry, bitmaps: set<LogBlock>)
  {
    g.size <= BPB ==> bitmaps <= {BitmapBlock(0)}
  }

  lemma OnlyBitmap(g: Geometry, b: nat)
    requires b < g.size
    ensures OneBitmap(g, {BitmapOf(b)})
  {
  }

  /** What the disk will hold once the transaction is committed, and what of it was logged. */
  datatype Storage = Storage(bits: seq<bv8>, blocks: seq<Block>, dinode: seq<Dinode>, logged: set<LogBlock>)

  /** Whatever has changed was logged: a commit takes all of it, a crash before it none. */
  ghost predicate Journaled(was: Storage, now: Storage)
  {
    && |now.bits| == |was.bits| && |now.blocks| == |was.blocks| && |now.dinode| == |was.dinode|
    && was.logged <= now.logged
    && (forall b: nat | b < 8 * |was.bits| && (Test(now.bits, b) != Test(was.bits, b)) ::
          BitmapBlock(b / BPB) in now.logged)
    && (forall b: nat | b < |was.blocks| && now.blocks[b] != was.blocks[b] :: DataBlock(b) in now.logged)
    && (forall k: nat | k < |was.dinode| && now.dinode[k] != was.dinode[k] ::
          InodeBlock(k / IPB) in now.logged)
  }

  lemma JournaledTrans(a: Storage, b: Storage, c: Storage)
    requires Journaled(a, b) && Journaled(b, c)
    ensures Journaled(a, c)
  {
  }

  /** Changes with their log_write: a bit, ... */
  lemma JournalBit(was: Storage, now: Storage, b: nat)
    requires b < 8 * |was.bits| && (now.bits == Set(was.bits, b) || now.bits == Clear(was.bits, b))
    requires now == was.(bits := now.bits, logged := was.logged + {BitmapOf(b)})
    ensures Journaled(was, now)
  {
    forall c: nat | c < 8 * |was.bits| && c != b ensures Test(now.bits, c) == Test(was.bits, c) {
      SetTest(was.bits, b, c);
      ClearTest(was.bits, b, c);
    }
  }

  /** ... a block, ... */
  lemma JournalBlock(was: Storage, now: Storage, b: nat, data: Block)
    requires b < |was.blocks|
    requires now == was.(blocks := was.blocks[b := data], logged := was.logged + {DataBlock(b)})
    ensures Journaled(was, now)
  {
  }

  /** ... an inode. */
  lemma JournalInode(was: Storage, now: Storage, i: nat, d: Dinode)
    requires i < |was.dinode|
    requires now == was.(dinode := was.dinode[i := d], logged := was.logged + {InodeOf(i)})
    ensures Journaled(was, now)
  {
  }

  lemma JournalNone(was: Storage)
    ensures Journaled(was, was)
  {
  }

  ghost function BitmapsOf(blocks: set<nat>): set<LogBlock>
  {
    set b | b in blocks :: BitmapOf(b)
  }

  lemma BitmapsAdd(blocks: set<nat>, b: nat)
    ensures BitmapsOf(blocks + {b}) == BitmapsOf(blocks) + {BitmapOf(b)}
  {
  }

  ghost function BlocksOf(owner: Owners, i: nat): set<nat>
  {
    set b | b in owner && owner[b].inum == i
  }

  /** How many blocks a transaction of filewrite logs at most. */
  function LogLimit(g: Geometry): (r: nat)
    ensures r <= MAXOPBLOCKS
  {
    if g.size <= BPB then 7 else MAXOPBLOCKS
  }

  /** On a disk whose bitmap has one block, however many processes write and however their
      transactions mix, log_write never panics. */
  lemma WritesNeverPanic(g: Geometry, c: LogProtocol.Config, n: nat, run: seq<LogProtocol.Action>)
    requires g.size <= BPB && c.budget == LogLimit(g) && c.size >= LOGSIZE
    requires LogProtocol.Legal(c, LogProtocol.Init(n), run)
    ensures !LogProtocol.After(c, LogProtocol.Init(n), run).panicked
  {
    LogProtocol.PanicFree(c, n, run);
  }

  /** IBLOCK: the block that stores inode i. */
  function InodeOf(i: nat): (r: LogBlock)
  {
    InodeBlock(i / IPB)
  }

  lemma MarkSet(g: Geometry, bits: seq<bv8>, owner: Owners, b: nat, s: Slot)
    requires Marked(g, bits, owner) && g.start <= b < g.size
    ensures Marked(g, Set(bits, b), owner[b := s])
  {
    forall c: nat | c < g.size
      ensures Test(Set(bits, b), c) <==> c < g.start || c in owner[b := s]
    {
      SetTest(bits, b, c);
    }
  }

  /** Adding a block to a file in use keeps every file as long as its size says. */
  lemma StaysSized(inode: seq<Dinode>, blocks: seq<Block>, inode': seq<Dinode>, blocks': seq<Block>, i: nat, n: nat)
    requires Sized(inode, blocks) && i < |inode|
    requires Frame(inode, blocks, inode', blocks', i, n)
    requires inode' == inode[i := inode[i].(addrs := inode'[i].addrs)] && inode[i].kind != 0
    requires n < MAXFILE ==> Addr(inode', blocks', i, n) != 0
    ensures Sized(inode', blocks')
  {
    forall j | 0 <= j < |inode'| ensures FileSized(inode', blocks', j) {
      assert FileSized(inode, blocks, j);
      forall m | 0 <= m < MAXFILE && m * BSIZE < inode'[j].size ensures Addr(inode', blocks', j, m) != 0 {
        if !(j == i && m == n) { assert Kept(inode, blocks, inode', blocks', j, m); }
      }
    }
  }

  lemma FrameTrans(inode: seq<Dinode>, blocks: seq<Block>, inode1: seq<Dinode>, blocks1: seq<Block>,
                   inode2: seq<Dinode>, blocks2: seq<Block>, i: nat, n: nat)
    requires Frame(inode, blocks, inode1, blocks1, i, MAXFILE) || Frame(inode, blocks, inode1, blocks1, i, n)
    requires Frame(inode1, blocks1, inode2, blocks2, i, n)
    ensures Frame(inode, blocks, inode2, blocks2, i, n)
  {
    forall j, m | 0 <= j < |inode| && 0 <= m < MAXFILE && !(j == i && m == n)
      ensures Kept(inode, blocks, inode2, blocks2, j, m)
    {
      assert Kept(inode, blocks, inode1, blocks1, j, m);
      assert Kept(inode1, blocks1, inode2, blocks2, j, m);
    }
  }

  /** The bitmap part way through a truncation: `freed` is already given back. */
  ghost predicate MarkedExcept(g: Geometry, bits: seq<bv8>, owner: Owners, freed: set<nat>)
  {
    && g.size <= 8 * |bits|
    && forall b: nat | b < g.size :: Test(bits, b) <==> b < g.start || (b in owner && b !in freed)
  }

  lemma ExceptClear(g: Geometry, bits: seq<bv8>, owner: Owners, freed: set<nat>, b: nat)
    requires MarkedExcept(g, bits, owner, freed) && g.start <= b < g.size
    ensures MarkedExcept(g, Clear(bits, b), owner, freed + {b})
  {
    forall c: nat | c < g.size
      ensures Test(Clear(bits, b), c) <==> c < g.start || (c in owner && c !in freed + {b})
    {
      ClearTest(bits, b, c);
    }
  }

  lemma MarkedRest(g: Geometry, bits: seq<bv8>, owner: Owners, freed: set<nat>, i: nat)
    requires MarkedExcept(g, bits, owner, freed)
    requires forall b :: b in freed <==> b in owner && owner[b].inum == i
    ensures Marked(g, bits, map b | b in owner && owner[b].inum != i :: owner[b])
  {
  }

  lemma TruncatedSized(inode: seq<Dinode>, blocks: seq<Block>, i: nat, d: Dinode)
    requires Sized(inode, blocks) && i < |inode| && d.size == 0 && d.addrs == EMPTY.addrs
    ensures Sized(inode[i := d], blocks)
  {
    var inode' := inode[i := d];
    forall j | 0 <= j < |inode| ensures FileSized(inode', blocks, j) {
      assert FileSized(inode, blocks, j);
      if j != i {
        forall m | 0 <= m < MAXFILE && m * BSIZE < inode[j].size ensures Addr(inode', blocks, j, m) != 0 {
          assert Addr(inode', blocks, j, m) == Addr(inode, blocks, j, m);
        }
      }
    }
  }

  /** `freed` is exactly the blocks in the first k slots of inode i. */
  ghost predicate FreedUpTo(inode: seq<Dinode>, blocks: seq<Block>, owner: Owners, i: nat, k: nat, freed: set<nat>)
    requires i < |inode|
  {
    && (forall b | b in freed :: b in owner && owner[b].Nth? && owner[b].inum == i && owner[b].n < k)
    && (forall m | 0 <= m < k && m < MAXFILE && Addr(inode, blocks, i, m) != 0 :: Addr(inode, blocks, i, m) in freed)
  }

  /** `off + n < off` in 32-bit arithmetic. */
  predicate Wraps(off: word, n: word)
    ensures Wraps(off, n) <==> off + n >= TWO32
  {
    (off + n) % TWO32 < off
  }

  /** How much of `left` bytes from offset o on lies in o's block. */
  function Chunk(o: nat, left: nat): (m: nat)
    ensures m <= left && o % BSIZE + m <= BSIZE
    ensures left > 0 ==> m > 0
    ensures m < left ==> (o + m) % BSIZE == 0
  {
    if left < BSIZE - o % BSIZE then left else BSIZE - o % BSIZE
  }

  /** Bytes of one block lie together. */
  lemma WithinBlock(inode: seq<Dinode>, blocks: seq<Block>, i: nat, off: nat, y: nat)
    requires i < |inode| && off + y < MAXFILE * BSIZE && off % BSIZE + y < BSIZE
    ensures (off + y) / BSIZE == off / BSIZE && (off + y) % BSIZE == off % BSIZE + y
    ensures
      var a := Addr(inode, blocks, i, off / BSIZE);
      0 < a < |blocks| ==> ByteAt(inode, blocks, i, off + y) == blocks[a][off % BSIZE + y]
  {
  }

  /** A block with `data` put in at file offset o. */
  function Patch(b: Block, o: nat, data: seq<byte>): (r: Block)
    requires o % BSIZE + |data| <= BSIZE
  {
    b[..o % BSIZE] + data + b[o % BSIZE + |data|..]
  }

  /** No byte of any file has changed except those from lo up to hi of inode i. */
  ghost predicate OnlyBytes(inode: seq<Dinode>, blocks: seq<Block>, inode': seq<Dinode>, blocks': seq<Block>,
                            i: nat, lo: nat, hi: nat)
  {
    && |inode'| == |inode|
    && forall j, x | 0 <= j < |inode| && 0 <= x < MAXFILE * BSIZE && !(j == i && lo <= x < hi) ::
         ByteAt(inode', blocks', j, x) == ByteAt(inode, blocks, j, x)
  }

  /** Getting or finding block n of inode i, then overwriting part of it, in terms of bytes:
      blocks come zeroed, so a new one reads like the missing one did. */
  lemma ChunkBytes(g: Geometry, inode: seq<Dinode>, blocks: seq<Block>, inode': seq<Dinode>, blocks': seq<Block>,
                   blocks'': seq<Block>, i: nat, o: nat, data: seq<byte>)
    requires i < |inode| && 0 < |data| && o % BSIZE + |data| <= BSIZE && o + |data| <= MAXFILE * BSIZE
    requires Frame(inode, blocks, inode', blocks', i, o / BSIZE)
    requires
      var n := o / BSIZE;
      var a := Addr(inode', blocks', i, n);
      && 0 < a < |blocks'|
      && (if Addr(inode, blocks, i, n) == 0 then blocks'[a] == ZERO
          else Addr(inode, blocks, i, n) == a && blocks'[a] == blocks[a])
      && Frame(inode', blocks', inode', blocks'', i, n) && Addr(inode', blocks'', i, n) == a
      && blocks''[a] == Patch(blocks'[a], o, data)
    requires forall j, m | 0 <= j < |inode| && 0 <= m < MAXFILE ::
      Addr(inode, blocks, j, m) != 0 ==> Addr(inode, blocks, j, m) < |blocks|
    ensures OnlyBytes(inode, blocks, inode', blocks'', i, o, o + |data|)
    ensures forall x | o <= x < o + |data| :: ByteAt(inode', blocks'', i, x) == data[x - o]
  {
    var n := o / BSIZE;
    forall j, x | 0 <= j < |inode| && 0 <= x < MAXFILE * BSIZE && !(j == i && o <= x < o + |data|)
      ensures ByteAt(inode', blocks'', j, x) == ByteAt(inode, blocks, j, x)
    {
      var m := x / BSIZE;
      if j == i && m == n {
        assert x % BSIZE < o % BSIZE || o % BSIZE + |data| <= x % BSIZE;
      } else {
        assert Kept(inode, blocks, inode', blocks', j, m) && Kept(inode', blocks', inode', blocks'', j, m);
      }
    }
    forall x | o <= x < o + |data| ensures ByteAt(inode', blocks'', i, x) == data[x - o] {
      WithinBlock(inode', blocks'', i, o, x - o);
    }
  }

  lemma OnlyBytesTrans(inode: seq<Dinode>, blocks: seq<Block>, inode1: seq<Dinode>, blocks1: seq<Block>,
                       inode2: seq<Dinode>, blocks2: seq<Block>, i: nat, lo: nat, mid: nat, hi: nat, data: seq<byte>)
    requires lo <= mid <= hi <= MAXFILE * BSIZE && i < |inode| && |data| >= hi - lo
    requires OnlyBytes(inode, blocks, inode1, blocks1, i, lo, mid)
    requires OnlyBytes(inode1, blocks1, inode2, blocks2, i, mid, hi)
    requires forall x | lo <= x < mid :: ByteAt(inode1, blocks1, i, x) == data[x - lo]
    requires forall x | mid <= x < hi :: ByteAt(inode2, blocks2, i, x) == data[x - lo]
    ensures OnlyBytes(inode, blocks, inode2, blocks2, i, lo, hi)
    ensures forall x | lo <= x < hi :: ByteAt(inode2, blocks2, i, x) == data[x - lo]
  {
    forall j, x | 0 <= j < |inode| && 0 <= x < MAXFILE * BSIZE && !(j == i && lo <= x < hi)
      ensures ByteAt(inode2, blocks2, j, x) == ByteAt(inode, blocks, j, x)
    {
      assert ByteAt(inode1, blocks1, j, x) == ByteAt(inode, blocks, j, x);
    }
    forall x | lo <= x < hi ensures ByteAt(inode2, blocks2, i, x) == data[x - lo] {
      if x < mid { assert ByteAt(inode2, blocks2, i, x) == ByteAt(inode1, blocks1, i, x); }
    }
  }

  /** All blocks of the file that begin below o are there. */
  ghost predicate Covered(inode: seq<Dinode>, blocks: seq<Block>, i: nat, o: nat)
    requires i < |inode|
  {
    forall m | 0 <= m < MAXFILE && m * BSIZE < o :: Addr(inode, blocks, i, m) != 0
  }

  lemma CoveredStep(inode: seq<Dinode>, blocks: seq<Block>, inode': seq<Dinode>, blocks': seq<Block>, i: nat, o: nat,
                    m: nat)
    requires i < |inode| && Covered(inode, blocks, i, o) && o % BSIZE + m <= BSIZE && o + m <= MAXFILE * BSIZE && 0 < m
    requires Frame(inode, blocks, inode', blocks', i, o / BSIZE) && Addr(inode', blocks', i, o / BSIZE) != 0
    ensures Covered(inode', blocks', i, o + m)
  {
    forall k | 0 <= k < MAXFILE && k * BSIZE < o + m ensures Addr(inode', blocks', i, k) != 0 {
      if k != o / BSIZE { assert Kept(inode, blocks, inode', blocks', i, k); }
    }
  }

  /** Only at a block boundary can the next block be missing. */
  lemma MissingIsAligned(inode: seq<Dinode>, blocks: seq<Block>, i: nat, o: nat)
    requires i < |inode| && Covered(inode, blocks, i, o) && o < MAXFILE * BSIZE
    ensures Addr(inode, blocks, i, o / BSIZE) == 0 ==> o % BSIZE == 0
  {
    assert o / BSIZE * BSIZE < o || o % BSIZE == 0;
  }

  /** The block behind the last one that n bytes from offset o on touch. */
  function EndBlock(o: nat, n: nat): nat
  {
    if n == 0 then o / BSIZE else (o + n - 1) / BSIZE + 1
  }

  lemma EndBlockIs(o: nat, n: nat)
    requires o + n <= MAXFILE * BSIZE
    ensures EndBlock(o, n) <= MAXFILE && (n > 0 ==> o / BSIZE < EndBlock(o, n))
    ensures (o + n) / BSIZE <= EndBlock(o, n)
    ensures (n > 0 ==> (o + n) / BSIZE < EndBlock(o, n) ==> (o + n) / BSIZE + 1 == EndBlock(o, n))
    ensures n > 0 ==> (EndBlock(o, n) - 1) * BSIZE < o + n
  {
  }

  /** Once all blocks are there nothing is missing. */
  lemma CoveredMissing(inode: seq<Dinode>, blocks: seq<Block>, i: nat, o: nat, n: nat)
    requires i < |inode| && o + n <= MAXFILE * BSIZE && EndBlock(o, n) <= MAXFILE && Covered(inode, blocks, i, o + n)
    ensures Missing(inode, blocks, i, (o + n) / BSIZE, EndBlock(o, n)) == 0
  {
    EndBlockIs(o, n);
    var hi := EndBlock(o, n);
    if (o + n) / BSIZE < hi && n > 0 {
      assert Addr(inode, blocks, i, hi - 1) != 0;
      assert Gaps(inode, blocks, i, hi, hi) == 0;
    }
  }

  /** One turn of writei's loop: `data`, which lies in one block, is in file i from offset o on.
      That block is there, and so is the indirect block if it is reached through it. */
  ghost predicate ChunkPut(was: seq<Dinode>, wasBlocks: seq<Block>, inode: seq<Dinode>, blocks: seq<Block>,
                           i: nat, o: nat, n: nat, data: seq<byte>)
  {
    && i < |was| && n == o / BSIZE && 0 < |data| && o % BSIZE + |data| <= BSIZE && o + |data| <= MAXFILE * BSIZE
    && Frame(was, wasBlocks, inode, blocks, i, n) && Addr(inode, blocks, i, n) != 0
    && inode == was[i := was[i].(addrs := inode[i].addrs)] && (Addr(was, wasBlocks, i, n) != 0 ==> inode == was)
    && OnlyBytes(was, wasBlocks, inode, blocks, i, o, o + |data|)
    && (forall x | o <= x < o + |data| :: ByteAt(inode, blocks, i, x) == data[x - o])
    && (NDIRECT <= n ==> TableAddr(inode, i) != 0)
    && (n < NDIRECT || TableAddr(was, i) != 0 ==> TableAddr(inode, i) == TableAddr(was, i))
  }

  /** Between two states of a write, the blocks used are those no longer missing: with room and
      room' free blocks, and n and n' the blocks to write next, counted up to any hi from end on. */
  ghost predicate Spends(was: seq<Dinode>, wasBlocks: seq<Block>, room: nat, inode: seq<Dinode>, blocks: seq<Block>,
                         room': nat, i: nat, n: nat, n': nat, end: nat)
  {
    && i < |was| && i < |inode|
    && forall hi | end <= hi <= MAXFILE ::
         room' - Missing(inode, blocks, i, n', hi) == room - Missing(was, wasBlocks, i, n, hi)
  }

  /** There are not enough free blocks. */
  ghost predicate Short(inode: seq<Dinode>, blocks: seq<Block>, room: nat, i: nat, n: nat, end: nat)
  {
    i < |inode| && forall hi | end <= hi <= MAXFILE :: room < Missing(inode, blocks, i, n, hi)
  }

  lemma SpendStep(was: seq<Dinode>, wasBlocks: seq<Block>, room: nat, inode: seq<Dinode>, blocks: seq<Block>,
                  room': nat, i: nat, o: nat, m: nat, end: nat)
    requires o / BSIZE < end && 0 < m && o % BSIZE + m <= BSIZE && o + m <= MAXFILE * BSIZE
    requires i < |was| && Frame(was, wasBlocks, inode, blocks, i, o / BSIZE) && Addr(inode, blocks, i, o / BSIZE) != 0
    requires o / BSIZE < NDIRECT || TableAddr(was, i) != 0 ==> TableAddr(inode, i) == TableAddr(was, i)
    requires NDIRECT <= o / BSIZE ==> TableAddr(inode, i) != 0
    requires room' == room - Missing(was, wasBlocks, i, o / BSIZE, o / BSIZE + 1)
    ensures Spends(was, wasBlocks, room, inode, blocks, room', i, o / BSIZE, (o + m) / BSIZE, end)
  {
    var n := o / BSIZE;
    assert (o + m) / BSIZE == n || (o + m) / BSIZE == n + 1;
    forall hi | end <= hi <= MAXFILE
      ensures room' - Missing(inode, blocks, i, (o + m) / BSIZE, hi) == room - Missing(was, wasBlocks, i, n, hi)
    {
      MissingStep(was, wasBlocks, inode, blocks, i, n, hi);
    }
  }

  lemma ShortStep(inode: seq<Dinode>, blocks: seq<Block>, room: nat, i: nat, n: nat, end: nat)
    requires i < |inode| && n < MAXFILE && n < end && room < Missing(inode, blocks, i, n, n + 1)
    ensures Short(inode, blocks, room, i, n, end)
  {
    forall hi | end <= hi <= MAXFILE ensures room < Missing(inode, blocks, i, n, hi) {
      GapsMore(inode, blocks, i, n, n + 1, hi);
    }
  }

  lemma SpendNone(inode: seq<Dinode>, blocks: seq<Block>, room: nat, i: nat, n: nat, end: nat)
    requires i < |inode|
    ensures Spends(inode, blocks, room, inode, blocks, room, i, n, n, end)
  {
  }

  lemma SpendTrans(was: seq<Dinode>, wasBlocks: seq<Block>, room: nat, inode1: seq<Dinode>, blocks1: seq<Block>,
                   room1: nat,
                   inode: seq<Dinode>, blocks: seq<Block>, room': nat, i: nat, n: nat, n1: nat, n': nat, mid: nat,
                   end: nat)
    requires Spends(was, wasBlocks, room, inode1, blocks1, room1, i, n, n1, end) && mid <= end
    requires Spends(inode1, blocks1, room1, inode, blocks, room', i, n1, n', mid)
    ensures Spends(was, wasBlocks, room, inode, blocks, room', i, n, n', end)
  {
    forall hi | end <= hi <= MAXFILE
      ensures room' - Missing(inode, blocks, i, n', hi) == room - Missing(was, wasBlocks, i, n, hi)
    {
      assert room1 - Missing(inode1, blocks1, i, n1, hi) == room - Missing(was, wasBlocks, i, n, hi);
    }
  }

  lemma ShortTrans(was: seq<Dinode>, wasBlocks: seq<Block>, room: nat, inode: seq<Dinode>, blocks: seq<Block>,
                   room': nat,
                   i: nat, n: nat, n': nat, mid: nat, end: nat)
    requires Spends(was, wasBlocks, room, inode, blocks, room', i, n, n', end) && mid <= end
    requires Short(inode, blocks, room', i, n', mid)
    ensures Short(was, wasBlocks, room, i, n, end)
  {
    forall hi | end <= hi <= MAXFILE ensures room < Missing(was, wasBlocks, i, n, hi) {
      assert room' < Missing(inode, blocks, i, n', hi);
    }
  }

  /** The free blocks that a write of n bytes from offset o on will use. */
  ghost function Needs(inode: seq<Dinode>, blocks: seq<Block>, i: nat, o: nat, n: nat): nat
    requires i < |inode| && o + n <= MAXFILE * BSIZE
  {
    EndBlockIs(o, n);
    Missing(inode, blocks, i, o / BSIZE, EndBlock(o, n))
  }

  /** One turn of a write of len bytes from off on, at offset o: it took what its block needed, ... */
  lemma TurnSpends(was: seq<Dinode>, wasBlocks: seq<Block>, room: nat, inode1: seq<Dinode>, blocks1: seq<Block>,
                   room1: nat,
                   inode: seq<Dinode>, blocks: seq<Block>, room': nat, i: nat, off: nat, len: nat, o: nat, n: nat,
                   data: seq<byte>)
    requires ChunkPut(inode1, blocks1, inode, blocks, i, o, n, data) && off <= o && o + |data| <= off + len
    requires Spends(was, wasBlocks, room, inode1, blocks1, room1, i, off / BSIZE, n, EndBlock(off, len))
    requires room' == room1 - Missing(inode1, blocks1, i, n, n + 1)
    ensures Spends(was, wasBlocks, room, inode, blocks, room', i, off / BSIZE, (o + |data|) / BSIZE, EndBlock(off, len))
  {
    var end, m := EndBlock(off, len), |data|;
    SpendStep(inode1, blocks1, room1, inode, blocks, room', i, o, m, end);
    SpendTrans(was, wasBlocks, room, inode1, blocks1, room1, inode, blocks, room', i, off / BSIZE, n, (o + m) / BSIZE,
               end, end);
  }

  /** ... or there was not enough for that. */
  lemma TurnShort(was: seq<Dinode>, wasBlocks: seq<Block>, room: nat, inode1: seq<Dinode>, blocks1: seq<Block>,
                  room1: nat,
                  i: nat, off: nat, len: nat, o: nat, n: nat)
    requires off <= o < off + len && n == o / BSIZE < MAXFILE
    requires Spends(was, wasBlocks, room, inode1, blocks1, room1, i, off / BSIZE, n, EndBlock(off, len))
    requires room1 < Missing(inode1, blocks1, i, n, n + 1)
    ensures Short(was, wasBlocks, room, i, off / BSIZE, EndBlock(off, len))
  {
    var end := EndBlock(off, len);
    ShortStep(inode1, blocks1, room1, i, n, end);
    ShortTrans(was, wasBlocks, room, inode1, blocks1, room1, i, off / BSIZE, n, end, end);
  }

  /** Storing another size moves no block. */
  lemma SpendSize(was: seq<Dinode>, wasBlocks: seq<Block>, room: nat, inode: seq<Dinode>, blocks: seq<Block>,
                  room': nat,
                  inode': seq<Dinode>, i: nat, n: nat, n': nat, end: nat)
    requires Spends(was, wasBlocks, room, inode, blocks, room', i, n, n', end)
    requires i < |inode'| && inode'[i].addrs == inode[i].addrs
    ensures Spends(was, wasBlocks, room, inode', blocks, room', i, n, n', end)
  {
    forall hi | end <= hi <= MAXFILE
      ensures room' - Missing(inode', blocks, i, n', hi) == room - Missing(was, wasBlocks, i, n, hi)
    {
      GapsKept(inode, blocks, inode', blocks, i, n', hi);
    }
  }

  /** At the end of a write nothing is missing, so there were enough. */
  lemma SpentAll(was: seq<Dinode>, wasBlocks: seq<Block>, room: nat, inode: seq<Dinode>, blocks: seq<Block>, room': nat,
                 i: nat, off: nat, len: nat)
    requires Spends(was, wasBlocks, room, inode, blocks, room', i, off / BSIZE, (off + len) / BSIZE, EndBlock(off, len))
    requires off + len <= MAXFILE * BSIZE && Covered(inode, blocks, i, off + len)
    ensures EndBlock(off, len) <= MAXFILE && room >= Missing(was, wasBlocks, i, off / BSIZE, EndBlock(off, len))
  {
    EndBlockIs(off, len);
    CoveredMissing(inode, blocks, i, off, len);
  }

  ghost function TableBlock(inode: seq<Dinode>, i: nat): set<LogBlock>
    requires i < |inode|
  {
    if TableAddr(inode, i) == 0 then {} else {DataBlock(TableAddr(inode, i))}
  }

  /** What writei has logged after `turns` turns: one data block per turn, one bitmap block
      per new block, and the indirect block. */
  datatype Tally = Tally(turns: nat, data: set<LogBlock>, bitmaps: set<LogBlock>)

  ghost predicate Tallied(t: Tally, was: seq<Dinode>, now: seq<Dinode>, i: nat, off: nat, tot: nat, n: nat)
    requires i < |was| && i < |now|
  {
    && (t.turns == 0 <==> tot == 0)
    && (0 < tot < n ==> off % BSIZE + tot == BSIZE * t.turns)
    && (0 < tot ==> BSIZE * (t.turns - 1) < off % BSIZE + tot)
    && |t.data| <= t.turns
    && |t.bitmaps| <= t.turns - (if off % BSIZE != 0 && tot > 0 then 1 else 0)
                    + (if TableAddr(was, i) == 0 && TableAddr(now, i) != 0 then 1 else 0)
  }

  /** The tally covers all that was logged since `before`. */
  ghost predicate Counted(t: Tally, was: seq<Dinode>, now: seq<Dinode>, i: nat, off: nat, tot: nat, n: nat,
                          logged: set<LogBlock>, before: set<LogBlock>)
  {
    && i < |was| && i < |now| && Tallied(t, was, now, i, off, tot, n)
    && (TableAddr(was, i) != 0 ==> TableAddr(now, i) == TableAddr(was, i))
    && logged <= before + t.data + t.bitmaps + TableBlock(now, i)
  }

  /** writei's loop has put the bytes of src from off up to o into the file. */
  ghost predicate Written(was: seq<Dinode>, wasBlocks: seq<Block>, inode: seq<Dinode>, blocks: seq<Block>,
                          i: nat, off: nat, o: nat, src: seq<byte>)
  {
    && i < |was| == |inode| && off <= o <= off + |src| && o <= MAXFILE * BSIZE
    && inode == was[i := was[i].(addrs := inode[i].addrs)]
    && (o <= was[i].size ==> inode == was)
    && Covered(inode, blocks, i, o)
    && OnlyBytes(was, wasBlocks, inode, blocks, i, off, o)
    && (forall x | off <= x < o :: ByteAt(inode, blocks, i, x) == src[x - off])
  }

  lemma WrittenStep(was: seq<Dinode>, wasBlocks: seq<Block>, inode1: seq<Dinode>, blocks1: seq<Block>,
                    inode: seq<Dinode>, blocks: seq<Block>, i: nat, off: nat, tot: nat, src: seq<byte>, n: nat,
                    data: seq<byte>)
    requires Written(was, wasBlocks, inode1, blocks1, i, off, off + tot, src)
    requires ChunkPut(inode1, blocks1, inode, blocks, i, off + tot, n, data)
    requires FileSized(inode1, blocks1, i) && tot + |data| <= |src| && data == src[tot..tot + |data|]
    ensures Written(was, wasBlocks, inode, blocks, i, off, off + tot + |data|, src)
  {
    var o := off + tot;
    CoveredStep(inode1, blocks1, inode, blocks, i, o, |data|);
    forall x | o <= x < o + |data| ensures ByteAt(inode, blocks, i, x) == src[x - off] {
      assert ByteAt(inode, blocks, i, x) == data[x - o] == src[x - off];
    }
    OnlyBytesTrans(was, wasBlocks, inode1, blocks1, inode, blocks, i, off, o, o + |data|, src);
    if o + |data| <= was[i].size {
      assert o / BSIZE * BSIZE < inode1[i].size;
    }
  }

  lemma WrittenIs(was: seq<Dinode>, wasBlocks: seq<Block>, inode: seq<Dinode>, blocks: seq<Block>, i: nat, off: nat,
                  o: nat,
                  src: seq<byte>)
    requires Written(was, wasBlocks, inode, blocks, i, off, o, src) && Sized(inode, blocks)
    ensures i < |was| == |inode| && Covered(inode, blocks, i, o) && FileSized(inode, blocks, i)
  {
  }

  lemma WriteStart(inode: seq<Dinode>, blocks: seq<Block>, i: nat, off: nat, src: seq<byte>, logged: set<LogBlock>)
    requires i < |inode| && Sized(inode, blocks) && off <= inode[i].size
    ensures Written(inode, blocks, inode, blocks, i, off, off, src)
    ensures Counted(Tally(0, {}, {}), inode, inode, i, off, 0, |src|, logged, logged)
  {
    assert FileSized(inode, blocks, i);
    assert inode == inode[i := inode[i].(addrs := inode[i].addrs)];
  }

  /** One more turn of m bytes, which logged the data block d and at most one bitmap block
      for it and one for a new indirect block. */
  lemma TallyStep(t: Tally, was: seq<Dinode>, now: seq<Dinode>, now': seq<Dinode>, i: nat, off: nat, tot: nat, n: nat,
                  m: nat, isNew: bool, d: LogBlock, bitmaps: set<LogBlock>)
    requires i < |was| && i < |now| && i < |now'| && tot < n && 0 < m <= n - tot
    requires Tallied(t, was, now, i, off, tot, n)
    requires m == Chunk(off + tot, n - tot)
    requires TableAddr(was, i) != 0 ==> TableAddr(now, i) == TableAddr(was, i)
    requires TableAddr(now, i) != 0 ==> TableAddr(now', i) == TableAddr(now, i)
    requires isNew ==> (off + tot) % BSIZE == 0
    requires |bitmaps| <= (if isNew then 1 else 0)
                        + (if TableAddr(now, i) == 0 && TableAddr(now', i) != 0 then 1 else 0)
    ensures Tallied(Tally(t.turns + 1, t.data + {d}, t.bitmaps + bitmaps), was, now', i, off, tot + m, n)
  {
    UnionSize(t.data, {d});
    UnionSize(t.bitmaps, bitmaps);
    assert off % BSIZE != 0 && tot == 0 ==> !isNew;
  }

  /** At most three blocks' worth of bytes: at most four turns, and then the first of them
      hits a block that was there. */
  lemma TallyBound(t: Tally, was: seq<Dinode>, now: seq<Dinode>, i: nat, off: nat, n: nat)
    requires i < |was| && i < |now| && Tallied(t, was, now, i, off, n, n) && n <= 3 * BSIZE
    ensures |t.data| + |t.bitmaps| <= 8 && |t.data| <= 4
  {
  }

  /** The bytes that changed, as contents of files. */
  lemma ContentsAfter(was: seq<Dinode>, wasBlocks: seq<Block>, inode: seq<Dinode>, blocks: seq<Block>,
                      i: nat, off: nat, src: seq<byte>)
    requires i < |was| == |inode| && Sized(was, wasBlocks) && Sized(inode, blocks) && off <= was[i].size
    requires inode == was[i := inode[i]]
    requires inode[i].size == if off + |src| > was[i].size then off + |src| else was[i].size
    requires OnlyBytes(was, wasBlocks, inode, blocks, i, off, off + |src|)
    requires forall x | off <= x < off + |src| :: x < MAXFILE * BSIZE && ByteAt(inode, blocks, i, x) == src[x - off]
    ensures forall j | 0 <= j < |inode| :: was[j].size <= MAXFILE * BSIZE && inode[j].size <= MAXFILE * BSIZE
    ensures Contents(inode, blocks, i) == Splice(Contents(was, wasBlocks, i), off, src)
    ensures forall j | 0 <= j < |inode| && j != i :: Contents(inode, blocks, j) == Contents(was, wasBlocks, j)
  {
    forall j | 0 <= j < |inode| ensures was[j].size <= MAXFILE * BSIZE && inode[j].size <= MAXFILE * BSIZE {
      assert FileSized(was, wasBlocks, j) && FileSized(inode, blocks, j);
    }
    var a, b := Contents(was, wasBlocks, i), Contents(inode, blocks, i);
    BytesAre(was, wasBlocks, i, was[i].size);
    BytesAre(inode, blocks, i, inode[i].size);
    forall x | 0 <= x < |b| ensures b[x] == Splice(a, off, src)[x] {
      assert b[x] == ByteAt(inode, blocks, i, x);
    }
    forall j | 0 <= j < |inode| && j != i ensures Contents(inode, blocks, j) == Contents(was, wasBlocks, j) {
      var c, d := Contents(was, wasBlocks, j), Contents(inode, blocks, j);
      BytesAre(was, wasBlocks, j, was[j].size);
      BytesAre(inode, blocks, j, inode[j].size);
      forall x | 0 <= x < |d| ensures d[x] == c[x] { assert d[x] == ByteAt(inode, blocks, j, x); }
    }
  }

  /** Bytes lo..hi of file i are those of data; every other byte of every file is as it
      was; the file is as long as that makes it, and nothing else about any inode differs. */
  ghost predicate Put(was: seq<Dinode>, wasBlocks: seq<Block>, inode: seq<Dinode>, blocks: seq<Block>,
                      i: nat, lo: nat, hi: nat, data: seq<byte>)
  {
    && i < |was| == |inode| && lo <= hi <= MAXFILE * BSIZE && hi - lo <= |data|
    && inode == was[i := was[i].(addrs := inode[i].addrs,
                                 size := if lo < hi && hi > was[i].size then hi else was[i].size)]
    && (lo < hi ==> lo <= was[i].size)
    && OnlyBytes(was, wasBlocks, inode, blocks, i, lo, hi)
    && forall x | lo <= x < hi :: ByteAt(inode, blocks, i, x) == data[x - lo]
  }

  /** The bytes are there and the size is stored. */
  lemma WrittenPut(was: seq<Dinode>, wasBlocks: seq<Block>, inode1: seq<Dinode>, inode: seq<Dinode>, blocks: seq<Block>,
                   i: nat, off: nat, src: seq<byte>)
    requires i < |was| && off <= was[i].size && Written(was, wasBlocks, inode1, blocks, i, off, off + |src|, src)
    requires inode == inode1[i := inode1[i].(size := if off + |src| > was[i].size then off + |src| else was[i].size)]
    requires OnlyBytes(inode1, blocks, inode, blocks, i, 0, 0)
    ensures Put(was, wasBlocks, inode, blocks, i, off, off + |src|, src)
  {
    var lo, hi := off, off + |src|;
    forall x | lo <= x < hi ensures ByteAt(inode, blocks, i, x) == src[x - lo] {
      assert ByteAt(inode, blocks, i, x) == ByteAt(inode1, blocks, i, x);
    }
    forall j, x | 0 <= j < |was| && 0 <= x < MAXFILE * BSIZE && !(j == i && lo <= x < hi)
      ensures ByteAt(inode, blocks, j, x) == ByteAt(was, wasBlocks, j, x)
    {
      assert ByteAt(inode, blocks, j, x) == ByteAt(inode1, blocks, j, x);
    }
  }

  lemma PutStep(was: seq<Dinode>, wasBlocks: seq<Block>, inode1: seq<Dinode>, blocks1: seq<Block>,
                inode: seq<Dinode>, blocks: seq<Block>, i: nat, lo: nat, mid: nat, hi: nat, data: seq<byte>,
                more: seq<byte>)
    requires Put(was, wasBlocks, inode1, blocks1, i, lo, mid, data) && mid < hi <= lo + |data|
    requires Put(inode1, blocks1, inode, blocks, i, mid, hi, more) && more == data[mid - lo..hi - lo]
    ensures Put(was, wasBlocks, inode, blocks, i, lo, hi, data)
  {
    forall x | mid <= x < hi ensures ByteAt(inode, blocks, i, x) == data[x - lo] {
      assert ByteAt(inode, blocks, i, x) == more[x - mid] == data[x - lo];
    }
    OnlyBytesTrans(was, wasBlocks, inode1, blocks1, inode, blocks, i, lo, mid, hi, data);
  }

  lemma PutPrefix(was: seq<Dinode>, wasBlocks: seq<Block>, inode: seq<Dinode>, blocks: seq<Block>,
                  i: nat, lo: nat, more: seq<byte>, data: seq<byte>)
    requires Put(was, wasBlocks, inode, blocks, i, lo, lo + |more|, more) && more <= data
    ensures Put(was, wasBlocks, inode, blocks, i, lo, lo + |more|, data)
  {
  }

  /** The same in terms of contents: the file is spliced, all others are unchanged. */
  lemma PutContents(was: seq<Dinode>, wasBlocks: seq<Block>, inode: seq<Dinode>, blocks: seq<Block>,
                    i: nat, lo: nat, hi: nat, data: seq<byte>)
    requires Put(was, wasBlocks, inode, blocks, i, lo, hi, data) && lo <= was[i].size
    requires Sized(was, wasBlocks) && Sized(inode, blocks)
    ensures forall j | 0 <= j < |inode| :: was[j].size <= MAXFILE * BSIZE && inode[j].size <= MAXFILE * BSIZE
    ensures Contents(inode, blocks, i) == Splice(Contents(was, wasBlocks, i), lo, data[..hi - lo])
    ensures forall j | 0 <= j < |inode| && j != i :: Contents(inode, blocks, j) == Contents(was, wasBlocks, j)
  {
    var d := data[..hi - lo];
    forall x | lo <= x < lo + |d| ensures ByteAt(inode, blocks, i, x) == d[x - lo] {
      assert ByteAt(inode, blocks, i, x) == data[x - lo];
    }
    ContentsAfter(was, wasBlocks, inode, blocks, i, lo, d);
  }

  /** filewrite has written the first k bytes of src, with the blocks that took. */
  ghost predicate FileDone(was: seq<Dinode>, wasBlocks: seq<Block>, room: nat, inode: seq<Dinode>, blocks: seq<Block>,
                           room': nat, i: nat, off: nat, k: nat, src: seq<byte>)
  {
    && k <= |src| && (k == 0 ==> inode == was && blocks == wasBlocks)
    && (k > 0 ==> Put(was, wasBlocks, inode, blocks, i, off, off + k, src))
    && Spends(was, wasBlocks, room, inode, blocks, room', i, off / BSIZE, (off + k) / BSIZE, EndBlock(off, |src|))
  }

  lemma FileStart(inode: seq<Dinode>, blocks: seq<Block>, room: nat, i: nat, off: nat, src: seq<byte>)
    requires i < |inode|
    ensures FileDone(inode, blocks, room, inode, blocks, room, i, off, 0, src)
  {
  }

  lemma FileIs(was: seq<Dinode>, wasBlocks: seq<Block>, room: nat, inode: seq<Dinode>, blocks: seq<Block>, room': nat,
               i: nat, off: nat, k: nat, src: seq<byte>)
    requires FileDone(was, wasBlocks, room, inode, blocks, room', i, off, k, src)
    ensures i < |was| && i < |inode|
    ensures k == 0 ==> inode == was && blocks == wasBlocks
    ensures k > 0 ==>
      Put(was, wasBlocks, inode, blocks, i, off, off + k, src) && off <= was[i].size && off + k <= inode[i].size
  {
  }

  lemma FileSpends(was: seq<Dinode>, wasBlocks: seq<Block>, room: nat, inode: seq<Dinode>, blocks: seq<Block>,
                   room': nat,
                   i: nat, off: nat, k: nat, src: seq<byte>)
    requires FileDone(was, wasBlocks, room, inode, blocks, room', i, off, k, src)
    ensures Spends(was, wasBlocks, room, inode, blocks, room', i, off / BSIZE, (off + k) / BSIZE, EndBlock(off, |src|))
  {
  }

  /** Bytes per transaction of filewrite. */
  const CHUNK := ((MAXOPBLOCKS - 1 - 1 - 2) / 2) * 512

  /** How many of len bytes filewrite puts into a file of the given size at off: all that it can,
      in whole chunks if not all of them. */
  function Arrives(off: nat, len: nat, size: nat): int
  {
    if off > size then 0
    else if off + len <= MAXFILE * BSIZE then len
    else (MAXFILE * BSIZE - off) / CHUNK * CHUNK
  }

  lemma ArrivesWithin(off: nat, len: nat, size: nat)
    requires size <= MAXFILE * BSIZE
    ensures 0 <= Arrives(off, len, size) <= len && Whole(0, len)
    ensures if off > size then Arrives(off, len, size) == 0 else off + Arrives(off, len, size) <= MAXFILE * BSIZE
    ensures Arrives(off, len, size) == len <==> len == 0 || (off <= size && off + len <= MAXFILE * BSIZE)
  {
  }

  /** So many whole chunks, or all. */
  ghost predicate Whole(k: nat, len: nat)
  {
    k % CHUNK == 0 || k == len
  }

  /** A chunk arrives exactly if it does not cross the limit. */
  lemma NextArrives(off: nat, len: nat, size: nat, k: nat, n: nat)
    requires off <= size <= MAXFILE * BSIZE && Whole(k, len) && k <= Arrives(off, len, size)
    requires k < len && n == if len - k > CHUNK then CHUNK else len - k
    ensures off + k + n <= MAXFILE * BSIZE ==> k + n <= Arrives(off, len, size)
    ensures off + k + n > MAXFILE * BSIZE ==> k == Arrives(off, len, size)
    ensures Whole(k + n, len)
  {
    if off + len > MAXFILE * BSIZE {
      WholeChunks(MAXFILE * BSIZE - off, k);
    }
  }

  lemma WholeChunks(room: nat, k: nat)
    requires k % CHUNK == 0
    ensures k <= room / CHUNK * CHUNK <==> k <= room
    ensures k <= room < k + CHUNK ==> k == room / CHUNK * CHUNK
    ensures k + CHUNK <= room ==> k + CHUNK <= room / CHUNK * CHUNK
  {
    var q, m := k / 1536, room / 1536;
    assert CHUNK == 1536;
    assert k == 1536 * q && room == 1536 * m + room % 1536;
  }

  /** A finished write had the blocks it needed, ... */
  lemma FileFits(was: seq<Dinode>, wasBlocks: seq<Block>, room: nat, inode: seq<Dinode>, blocks: seq<Block>, room': nat,
                 i: nat, off: nat, src: seq<byte>)
    requires FileDone(was, wasBlocks, room, inode, blocks, room', i, off, |src|, src) && Sized(inode, blocks)
    requires off <= was[i].size && off + |src| <= MAXFILE * BSIZE
    ensures room >= Needs(was, wasBlocks, i, off, |src|)
  {
    assert FileSized(inode, blocks, i);
    SpentAll(was, wasBlocks, room, inode, blocks, room', i, off, |src|);
  }

  /** ... and one that ran short had not. */
  lemma FileShort(inode: seq<Dinode>, blocks: seq<Block>, room: nat, i: nat, off: nat, len: nat)
    requires Short(inode, blocks, room, i, off / BSIZE, EndBlock(off, len)) && off + len <= MAXFILE * BSIZE
    ensures room < Needs(inode, blocks, i, off, len)
  {
    EndBlockIs(off, len);
  }

  lemma EndBlocks(off: nat, len: nat, o: nat, n: nat)
    requires off <= o && 0 < n && o + n <= off + len
    ensures EndBlock(o, n) <= EndBlock(off, len)
  {
  }

  lemma FileStep(was: seq<Dinode>, wasBlocks: seq<Block>, room: nat, inode1: seq<Dinode>, blocks1: seq<Block>,
                 room1: nat,
                 inode: seq<Dinode>, blocks: seq<Block>, room': nat, i: nat, off: nat, k: nat, n: nat, src: seq<byte>,
                 more: seq<byte>)
    requires FileDone(was, wasBlocks, room, inode1, blocks1, room1, i, off, k, src)
    requires 0 < n && k + n <= |src| && more == src[k..k + n]
    requires Put(inode1, blocks1, inode, blocks, i, off + k, off + k + n, more)
    requires Spends(inode1, blocks1, room1, inode, blocks, room', i, (off + k) / BSIZE, (off + k + n) / BSIZE,
                    EndBlock(off + k, n))
    ensures FileDone(was, wasBlocks, room, inode, blocks, room', i, off, k + n, src)
  {
    EndBlocks(off, |src|, off + k, n);
    SpendTrans(was, wasBlocks, room, inode1, blocks1, room1, inode, blocks, room', i, off / BSIZE, (off + k) / BSIZE,
               (off + k + n) / BSIZE, EndBlock(off + k, n), EndBlock(off, |src|));
    hide Spends, EndBlock;
    if k > 0 {
      PutStep(was, wasBlocks, inode1, blocks1, inode, blocks, i, off, off + k, off + k + n, src, more);
    } else {
      PutPrefix(was, wasBlocks, inode, blocks, i, off, more, src);
    }
  }

  class Fs {
    const g: Geometry
    var bits: seq<bv8>
    var blocks: seq<Block>
    var inode: seq<Dinode>       // the in-core copy of a locked inode, else the stored one
    var dinode: seq<Dinode>      // the stored inodes
    ghost var owner: Owners
    ghost var logged: set<LogBlock>

    ghost predicate Valid()
      reads this
    {
      && Owned(g, inode, blocks, owner)
      && Marked(g, bits, owner)
      && Sized(inode, blocks)
      && |dinode| == |inode|
      && (forall i | 0 <= i < |inode| && dinode[i].kind == 0 :: inode[i].kind == 0)
    }

    /** The file system that mkfs left on the disk. */
    constructor (g: Geometry, bits: seq<bv8>, blocks: seq<Block>, inode: seq<Dinode>, ghost owner: Owners)
      requires Owned(g, inode, blocks, owner) && Marked(g, bits, owner) && Sized(inode, blocks)
      ensures this.g == g && this.bits == bits && this.blocks == blocks && this.inode == this.dinode == inode
      ensures this.owner == owner && logged == {}
      ensures Valid()
    {
      this.g, this.bits, this.blocks, this.inode, this.dinode := g, bits, blocks, inode, inode;
      this.owner, logged := owner, {};
    }

    ghost function OnDisk(): Storage
      reads this
    {
      Storage(bits, blocks, dinode, logged)
    }

    /** How many blocks are free. */
    ghost function Room(): nat
      reads this
    {
      if g.size <= 8 * |bits| then |Zeros(bits, g.size)| else 0
    }

    /** balloc: the first free block, zeroed. None is the panic "out of blocks". */
    method Balloc() returns (r: Option<nat>)
      requires Valid()
      modifies this`bits, this`blocks, this`logged
      ensures r.None? ==> bits == old(bits) && blocks == old(blocks) && logged == old(logged)
      ensures r.None? ==> forall c: nat | c < g.size :: Test(bits, c)
      ensures r.None? <==> old(Room()) == 0
      ensures Room() == old(Room()) - if r.Some? then 1 else 0
      ensures r.Some? ==>
        var b := r.value;
        && g.start <= b < g.size && b !in owner
        && !Test(old(bits), b) && (forall c: nat | c < b :: Test(old(bits), c))
        && bits == Set(old(bits), b) && blocks == old(blocks)[b := ZERO]
        && logged == old(logged) + {BitmapOf(b), DataBlock(b)}
      ensures Journaled(old(OnDisk()), OnDisk())
    {
      var b := FirstFree(bits, g.size, BPB);
      if b == g.size {
        assert Zeros(bits, g.size) == {};
        JournalNone(OnDisk());
        return None;
      }
      SetZeros(bits, b, g.size);
      assert b in Zeros(bits, g.size);
      bits := Set(bits, b);
      logged := logged + {BitmapOf(b)};
      ghost var mid := OnDisk();
      JournalBit(old(OnDisk()), mid, b);
      blocks := blocks[b := ZERO];
      logged := logged + {DataBlock(b)};
      JournalBlock(mid, OnDisk(), b, ZERO);
      JournaledTrans(old(OnDisk()), mid, OnDisk());
      return Some(b);
    }

    /** The three places bmap puts a new block: a direct slot, ... */
    method AllocDirect(i: nat, n: nat) returns (r: Option<nat>)
      requires Valid() && i < |inode| && n < NDIRECT && inode[i].kind != 0
      requires Addr(inode, blocks, i, n) == 0
      modifies this`bits, this`blocks, this`inode, this`owner, this`logged
      ensures |inode| == |old(inode)| && |blocks| == |old(blocks)|
      ensures r.None? <==> old(Room()) == 0
      ensures Room() == old(Room()) - if r.Some? then 1 else 0
      ensures r.Some? ==>
        && 0 != r.value == Addr(inode, blocks, i, n)
        && Frame(old(inode), old(blocks), inode, blocks, i, n)
        && inode == old(inode)[i := old(inode)[i].(addrs := old(inode)[i].addrs[n := r.value])]
        && r.value < |blocks| && blocks[r.value] == ZERO
        && logged == old(logged) + {BitmapOf(r.value), DataBlock(r.value)} && r.value < g.size
      ensures r.Some? ==> Journaled(old(OnDisk()), OnDisk())
      ensures r.Some? ==> Valid()
    {
      r := Balloc();
      if r.None? { return; }
      LinkDirect(g, inode, old(blocks), owner, i, n, r.value);
      MarkSet(g, old(bits), owner, r.value, Nth(i, n));
      inode := inode[i := inode[i].(addrs := inode[i].addrs[n := r.value])];
      StaysSized(old(inode), old(blocks), inode, blocks, i, n);
      owner := owner[r.value := Nth(i, n)];
    }

    /** ... the slot of the indirect block, ... */
    method AllocTable(i: nat) returns (r: Option<nat>)
      requires Valid() && i < |inode| && inode[i].kind != 0 && TableAddr(inode, i) == 0
      modifies this`bits, this`blocks, this`inode, this`owner, this`logged
      ensures |inode| == |old(inode)| && |blocks| == |old(blocks)|
      ensures r.None? <==> old(Room()) == 0
      ensures Room() == old(Room()) - if r.Some? then 1 else 0
      ensures r.Some? ==>
        && 0 != r.value == TableAddr(inode, i)
        && Frame(old(inode), old(blocks), inode, blocks, i, MAXFILE)
        && inode == old(inode)[i := old(inode)[i].(addrs := old(inode)[i].addrs[NDIRECT := r.value])]
        && logged == old(logged) + {BitmapOf(r.value), DataBlock(r.value)} && r.value < g.size
      ensures r.Some? ==> Journaled(old(OnDisk()), OnDisk())
      ensures r.Some? ==> Valid()
    {
      r := Balloc();
      if r.None? { return; }
      ZeroWords();
      LinkTable(g, inode, old(blocks), owner, i, r.value, ZERO);
      MarkSet(g, old(bits), owner, r.value, Table(i));
      inode := inode[i := inode[i].(addrs := inode[i].addrs[NDIRECT := r.value])];
      StaysSized(old(inode), old(blocks), inode, blocks, i, MAXFILE);
      owner := owner[r.value := Table(i)];
    }

    /** ... and a slot in the indirect block. */
    method AllocEntry(i: nat, n: nat) returns (r: Option<nat>)
      requires Valid() && i < |inode| && NDIRECT <= n < MAXFILE && inode[i].kind != 0
      requires TableAddr(inode, i) != 0 && Addr(inode, blocks, i, n) == 0
      modifies this`bits, this`blocks, this`owner, this`logged
      ensures |blocks| == |old(blocks)|
      ensures r.None? <==> old(Room()) == 0
      ensures Room() == old(Room()) - if r.Some? then 1 else 0
      ensures r.Some? ==>
        && 0 != r.value == Addr(inode, blocks, i, n)
        && Frame(old(inode), old(blocks), inode, blocks, i, n)
        && r.value < |blocks| && blocks[r.value] == ZERO
        && logged == old(logged) + {BitmapOf(r.value), DataBlock(r.value), DataBlock(TableAddr(inode, i))}
        && r.value < g.size
      ensures r.Some? ==> Journaled(old(OnDisk()), OnDisk())
      ensures r.Some? ==> Valid()
    {
      r := Balloc();
      if r.None? { return; }
      LinkEntry(g, inode, old(blocks), owner, i, n, r.value);
      MarkSet(g, old(bits), owner, r.value, Nth(i, n));
      var t := inode[i].addrs[NDIRECT];
      ghost var mid := OnDisk();
      blocks := blocks[t := PutWord(blocks[t], n - NDIRECT, r.value)];
      logged := logged + {DataBlock(t)};
      JournalBlock(mid, OnDisk(), t, blocks[t]);
      JournaledTrans(old(OnDisk()), mid, OnDisk());
      assert inode == inode[i := inode[i].(addrs := inode[i].addrs)];
      StaysSized(inode, old(blocks), inode, blocks, i, n);
      owner := owner[r.value := Nth(i, n)];
    }

    /** bmap: the n-th block of a file, allocated if it was not there. */
    method Bmap(i: nat, n: nat) returns (r: Option<nat>, ghost bitmaps: set<LogBlock>)
      requires Valid() && i < |inode| && n < MAXFILE && inode[i].kind != 0
      modifies this`bits, this`blocks, this`inode, this`owner, this`logged
      ensures |inode| == |old(inode)| && |blocks| == |old(blocks)|
      ensures r.Some? <==> old(Room()) >= old(Missing(inode, blocks, i, n, n + 1))
      ensures r.Some? ==> Room() == old(Room()) - old(Missing(inode, blocks, i, n, n + 1))
      ensures r.None? ==> Room() == 0
      ensures r.Some? ==>
        && 0 != r.value == Addr(inode, blocks, i, n)
        && Frame(old(inode), old(blocks), inode, blocks, i, n)
        && inode == old(inode)[i := old(inode)[i].(addrs := inode[i].addrs)]
      ensures old(Addr(inode, blocks, i, n)) != 0 ==>
        && r == Some(old(Addr(inode, blocks, i, n))) && bitmaps == {}
        && bits == old(bits) && blocks == old(blocks) && inode == old(inode) && owner == old(owner)
        && logged == old(logged)
      ensures r.Some? && old(Addr(inode, blocks, i, n)) == 0 ==> r.value < |blocks| && blocks[r.value] == ZERO
      ensures r.Some? ==>
        && (n < NDIRECT ==> TableAddr(inode, i) == old(TableAddr(inode, i)))
        && (old(TableAddr(inode, i)) != 0 ==> TableAddr(inode, i) == old(TableAddr(inode, i)))
        && logged <= old(logged) + bitmaps + {DataBlock(r.value)} +
             (if n < NDIRECT then {} else {DataBlock(TableAddr(inode, i))})
        && |bitmaps| <= (if old(Addr(inode, blocks, i, n)) == 0 then 1 else 0)
                      + (if NDIRECT <= n && old(TableAddr(inode, i)) == 0 then 1 else 0)
        && OneBitmap(g, bitmaps)
      ensures r.Some? ==> Journaled(old(OnDisk()), OnDisk())
      ensures r.Some? ==> Valid()
    {
      hide Missing, Gaps, Fs.Room, Journaled;
      bitmaps := {};
      MissingOne(inode, blocks, i, n);
      JournalNone(OnDisk());
      if n < NDIRECT {
        var addr := inode[i].addrs[n];
        if addr != 0 { return Some(addr), {}; }
        r := AllocDirect(i, n);
        if r.Some? { bitmaps := {BitmapOf(r.value)}; OnlyBitmap(g, r.value); }
        return;
      }
      if inode[i].addrs[NDIRECT] == 0 {
        var t := AllocTable(i);
        if t.None? { return None, {}; }
        bitmaps := {BitmapOf(t.value)};
        OnlyBitmap(g, t.value);
        assert Kept(old(inode), old(blocks), inode, blocks, i, n);
      }
      ghost var inode1, blocks1, mid := inode, blocks, OnDisk();
      TableInRange(i);
      var addr := Word(blocks[inode[i].addrs[NDIRECT]], n - NDIRECT);
      if addr != 0 { return Some(addr), bitmaps; }
      r := AllocEntry(i, n);
      if r.None? { return; }
      bitmaps := bitmaps + {BitmapOf(r.value)};
      JournaledTrans(old(OnDisk()), mid, OnDisk());
      OnlyBitmap(g, r.value);
      if old(TableAddr(inode, i)) == 0 {
        FrameTrans(old(inode), old(blocks), inode1, blocks1, inode, blocks, i, n);
      }
    }

    /** bfree; false is the panic "freeing free block". */
    method Bfree(b: nat) returns (ok: bool)
      requires b < g.size <= 8 * |bits|
      modifies this`bits, this`logged
      ensures ok == old(Test(bits, b))
      ensures bits == if ok then Clear(old(bits), b) else old(bits)
      ensures logged == if ok then old(logged) + {BitmapOf(b)} else old(logged)
      ensures Journaled(old(OnDisk()), OnDisk())
    {
      JournalNone(OnDisk());
      if !Test(bits, b) { return false; }
      bits := Clear(bits, b);
      logged := logged + {BitmapOf(b)};
      JournalBit(old(OnDisk()), OnDisk(), b);
      return true;
    }

    /** Give back the block in slot m of inode i, if it has one. */
    method FreeSlot(i: nat, m: nat, a: nat, ghost was: seq<Dinode>, ghost freed: set<nat>, ghost before: Storage)
      returns (ok: bool, ghost freed': set<nat>)
      requires Owned(g, was, blocks, owner) && MarkedExcept(g, bits, owner, freed)
      requires i < |was| && m < MAXFILE && FreedUpTo(was, blocks, owner, i, m, freed)
      requires a == Addr(was, blocks, i, m)
      requires Journaled(before, OnDisk()) && logged == before.logged + BitmapsOf(freed)
      modifies this`bits, this`logged
      ensures ok
      ensures MarkedExcept(g, bits, owner, freed') && FreedUpTo(was, blocks, owner, i, m + 1, freed')
      ensures Journaled(before, OnDisk()) && logged == before.logged + BitmapsOf(freed')
    {
      hide Journaled, BitmapsOf;
      freed' := freed;
      ok := true;
      if a != 0 {
        assert NthOk(was, blocks, owner, i, m) && BlockOk(g, was, blocks, owner, a);
        ok := Bfree(a);
        ExceptClear(g, old(bits), owner, freed, a);
        freed' := freed + {a};
        BitmapsAdd(freed, a);
        JournaledTrans(before, old(OnDisk()), OnDisk());
      }
    }

    /** iupdate: store the in-core inode. */
    method Iupdate(i: nat)
      requires i < |inode| == |dinode|
      modifies this`dinode, this`logged
      ensures dinode == old(dinode)[i := inode[i]]
      ensures logged == old(logged) + {InodeOf(i)}
      ensures Journaled(old(OnDisk()), OnDisk())
    {
      dinode := dinode[i := inode[i]];
      logged := logged + {InodeOf(i)};
      JournalInode(old(OnDisk()), OnDisk(), i, inode[i]);
    }

    /** The direct half of itrunc. */
    method FreeDirect(i: nat) returns (ok: bool, ghost freed: set<nat>)
      requires Valid() && i < |inode|
      modifies this`bits, this`inode, this`logged
      ensures ok && |inode| == |old(inode)|
      ensures inode == old(inode)[i := old(inode)[i].(addrs := inode[i].addrs)]
      ensures forall j | 0 <= j <= NDIRECT :: inode[i].addrs[j] == if j < NDIRECT then 0 else old(inode)[i].addrs[j]
      ensures MarkedExcept(g, bits, owner, freed) && FreedUpTo(old(inode), blocks, owner, i, NDIRECT, freed)
      ensures Journaled(old(OnDisk()), OnDisk()) && logged == old(logged) + BitmapsOf(freed)
    {
      hide Journaled;
      freed, ok := {}, true;
      ghost var was := inode;
      JournalNone(OnDisk());
      var k := 0;
      while k < NDIRECT
        invariant 0 <= k <= NDIRECT && ok && |inode| == |was|
        invariant inode == was[i := was[i].(addrs := inode[i].addrs)]
        invariant forall j | 0 <= j <= NDIRECT :: inode[i].addrs[j] == if j < k then 0 else was[i].addrs[j]
        invariant MarkedExcept(g, bits, owner, freed) && FreedUpTo(was, blocks, owner, i, k, freed)
        invariant Journaled(old(OnDisk()), OnDisk()) && logged == old(logged) + BitmapsOf(freed)
      {
        ok, freed := FreeSlot(i, k, inode[i].addrs[k], was, freed, old(OnDisk()));
        inode := inode[i := inode[i].(addrs := inode[i].addrs[k := 0])];
        k := k + 1;
      }
    }

    /** The indirect half of itrunc: the listed blocks, then the list itself. */
    method FreeTable(i: nat, ghost was: seq<Dinode>, ghost freed: set<nat>, ghost before: Storage)
      returns (ok: bool, ghost freed': set<nat>)
      requires i < |inode| == |was| && TableAddr(inode, i) == TableAddr(was, i)
      requires Owned(g, was, blocks, owner) && MarkedExcept(g, bits, owner, freed)
      requires FreedUpTo(was, blocks, owner, i, NDIRECT, freed)
      requires Journaled(before, OnDisk()) && logged == before.logged + BitmapsOf(freed)
      modifies this`bits, this`logged
      ensures ok && MarkedExcept(g, bits, owner, freed')
      ensures forall b :: b in freed' <==> b in owner && owner[b].inum == i
      ensures Journaled(before, OnDisk()) && logged == before.logged + BitmapsOf(freed')
    {
      hide Journaled, BitmapsOf;
      freed', ok := freed, true;
      var t := inode[i].addrs[NDIRECT];
      if t != 0 {
        assert TableOk(was, owner, i) && BlockOk(g, was, blocks, owner, t);
        var j := 0;
        while j < NINDIRECT
          invariant 0 <= j <= NINDIRECT && ok
          invariant MarkedExcept(g, bits, owner, freed') && FreedUpTo(was, blocks, owner, i, NDIRECT + j, freed')
          invariant Journaled(before, OnDisk()) && logged == before.logged + BitmapsOf(freed')
        {
          ok, freed' := FreeSlot(i, NDIRECT + j, Word(blocks[t], j), was, freed', before);
          j := j + 1;
        }
        ghost var mid := OnDisk();
        ok := Bfree(t);
        ExceptClear(g, mid.bits, owner, freed', t);
        BitmapsAdd(freed', t);
        freed' := freed' + {t};
        JournaledTrans(before, mid, OnDisk());
      }
      forall b | b in owner && owner[b].inum == i ensures b in freed' {
        assert BlockOk(g, was, blocks, owner, b);
      }
    }

    /** Both halves of itrunc: the inode's blocks are free. */
    method FreeBlocks(i: nat) returns (ok: bool, ghost freed: set<nat>)
      requires Valid() && i < |inode|
      modifies this`bits, this`inode, this`logged
      ensures ok && MarkedExcept(g, bits, owner, freed) && freed == BlocksOf(owner, i)
      ensures inode == old(inode)[i := old(inode)[i].(addrs := EMPTY.addrs)]
      ensures Journaled(old(OnDisk()), OnDisk()) && logged == old(logged) + BitmapsOf(freed)
    {
      hide Journaled, BitmapsOf, MarkedExcept, FreedUpTo;
      ghost var was := inode;
      ok, freed := FreeDirect(i);
      ok, freed := FreeTable(i, was, freed, old(OnDisk()));
      inode := inode[i := inode[i].(addrs := inode[i].addrs[NDIRECT := 0])];
      assert inode[i].addrs == EMPTY.addrs;
    }

    /** itrunc: all blocks of the inode go back to the bitmap, each exactly once, so
        "freeing free block" cannot happen. */
    method Itrunc(i: nat) returns (ok: bool)
      requires Valid() && i < |inode|
      modifies this`bits, this`inode, this`dinode, this`owner, this`logged
      ensures ok && Valid()
      ensures inode == old(inode)[i := old(inode)[i].(size := 0, addrs := EMPTY.addrs)]
      ensures dinode == old(dinode)[i := inode[i]]
      ensures owner == map b | b in old(owner) && old(owner)[b].inum != i :: old(owner)[b]
      ensures forall b: nat | b < g.size ::
        Test(bits, b) <==> b < g.start || (b in old(owner) && old(owner)[b].inum != i)
      ensures Journaled(old(OnDisk()), OnDisk())
      ensures logged == old(logged) + BitmapsOf(BlocksOf(old(owner), i)) + {InodeOf(i)}
    {
      hide Journaled, BitmapsOf, MarkedExcept;
      ghost var was := inode;
      ghost var freed;
      ok, freed := FreeBlocks(i);
      ghost var mid := OnDisk();
      inode := inode[i := inode[i].(size := 0)];
      Iupdate(i);
      JournaledTrans(old(OnDisk()), mid, OnDisk());
      ghost var d := was[i].(size := 0, addrs := EMPTY.addrs);
      assert inode == was[i := d];
      UnlinkAll(g, was, blocks, owner, i, d);
      TruncatedSized(was, blocks, i, d);
      MarkedRest(g, bits, owner, freed, i);
      owner := map b | b in owner && owner[b].inum != i :: owner[b];
    }

    /** ialloc: the first free inode, emptied and given a type. None is "no inodes". */
    method Ialloc(kind: int) returns (r: Option<nat>)
      requires Valid() && kind != 0
      modifies this`inode, this`dinode, this`logged
      ensures Valid()
      ensures r.None? ==> dinode == old(dinode) && inode == old(inode) &&
                          forall i | 1 <= i < |dinode| :: dinode[i].kind != 0
      ensures r.Some? ==>
        && 1 <= r.value < |old(dinode)| && old(dinode)[r.value].kind == 0
        && (forall i | 1 <= i < r.value :: old(dinode)[i].kind != 0)
        && dinode == old(dinode)[r.value := EMPTY.(kind := kind)]
        && inode == old(inode)[r.value := EMPTY.(kind := kind)]
      ensures Journaled(old(OnDisk()), OnDisk())
      ensures logged == old(logged) + if r.Some? then {InodeOf(r.value)} else {}
    {
      JournalNone(OnDisk());
      var inum := 1;
      while inum < |dinode|
        invariant 1 <= inum && (inum <= |dinode| || |dinode| == 0)
        invariant inode == old(inode) && dinode == old(dinode) && logged == old(logged)
        invariant forall i | 1 <= i < inum && i < |dinode| :: dinode[i].kind != 0
      {
        if dinode[inum].kind == 0 {
          FreshInode(inum, kind);
          dinode := dinode[inum := EMPTY.(kind := kind)];
          logged := logged + {InodeOf(inum)};
          JournalInode(old(OnDisk()), OnDisk(), inum, EMPTY.(kind := kind));
          inode := inode[inum := EMPTY.(kind := kind)];
          return Some(inum);
        }
        inum := inum + 1;
      }
      return None;
    }

    /** A free inode owns nothing, so emptying it loses nothing. */
    lemma FreshInode(i: nat, kind: int)
      requires Valid() && i < |inode| && inode[i].kind == 0
      ensures
        var inode' := inode[i := EMPTY.(kind := kind)];
        Owned(g, inode', blocks, owner) && Sized(inode', blocks)
    {
      var d: Dinode := EMPTY.(kind := kind);
      assert FileSized(inode, blocks, i);
      assert inode[i].addrs == d.addrs;
      TruncatedSized(inode, blocks, i, d);
      SamePlaces(g, inode, blocks, owner, i, d);
    }

    /** What iput does to an inode without links or other users: truncate, mark free, store. */
    method FreeInode(i: nat) returns (ok: bool)
      requires Valid() && i < |inode|
      modifies this`bits, this`inode, this`dinode, this`owner, this`logged
      ensures ok && Valid()
      ensures inode == old(inode)[i := old(inode)[i].(kind := 0, size := 0, addrs := EMPTY.addrs)]
      ensures dinode == old(dinode)[i := inode[i]]
      ensures owner == map b | b in old(owner) && old(owner)[b].inum != i :: old(owner)[b]
      ensures Journaled(old(OnDisk()), OnDisk())
      ensures logged == old(logged) + BitmapsOf(BlocksOf(old(owner), i)) + {InodeOf(i)}
    {
      hide Journaled, BitmapsOf, BlocksOf;
      ok := Itrunc(i);
      ghost var mid := OnDisk();
      ghost var d: Dinode := inode[i].(kind := 0);
      TruncatedSized(inode, blocks, i, d);
      SamePlaces(g, inode, blocks, owner, i, d);
      inode := inode[i := inode[i].(kind := 0)];
      Iupdate(i);
      JournaledTrans(old(OnDisk()), mid, OnDisk());
    }

    /** One turn of readi's loop: m bytes that lie in one block. */
    method ReadChunk(i: nat, o: nat, m: nat) returns (bytes: seq<byte>)
      requires Valid() && i < |inode| && inode[i].kind != 0
      requires 0 < m && o + m <= inode[i].size && o % BSIZE + m <= BSIZE
      modifies this`bits, this`blocks, this`inode, this`owner, this`logged
      ensures bits == old(bits) && blocks == old(blocks) && inode == old(inode) && owner == old(owner)
      ensures logged == old(logged)
      ensures inode[i].size <= MAXFILE * BSIZE
      ensures |bytes| == m && forall x | o <= x < o + m :: bytes[x - o] == ByteAt(inode, blocks, i, x)
    {
      assert FileSized(inode, blocks, i);
      assert o / BSIZE < MAXFILE && o / BSIZE * BSIZE <= o;
      AddrInRange(i, o / BSIZE);
      var a, _ := Bmap(i, o / BSIZE);
      bytes := blocks[a.value][o % BSIZE..o % BSIZE + m];
      forall x | o <= x < o + m ensures bytes[x - o] == ByteAt(inode, blocks, i, x) {
        WithinBlock(inode, blocks, i, o, x - o);
      }
    }

    /** readi on a file or directory: -1, or the matching slice of the contents. */
    method Readi(i: nat, off: word, n: word) returns (r: int, dst: seq<byte>)
      requires Valid() && i < |inode| && inode[i].kind != 0
      modifies this`bits, this`blocks, this`inode, this`owner, this`logged
      ensures bits == old(bits) && blocks == old(blocks) && inode == old(inode) && owner == old(owner)
      ensures logged == old(logged)
      ensures r == -1 <==> off > inode[i].size || off + n >= TWO32
      ensures inode[i].size <= MAXFILE * BSIZE
      ensures r != -1 ==>
        && r == (if off + n > inode[i].size then inode[i].size - off else n)
        && dst == Contents(inode, blocks, i)[off..off + r]
    {
      assert FileSized(inode, blocks, i);
      dst := [];
      if off > inode[i].size || Wraps(off, n) { return -1, []; }
      r := n;
      if off + n > inode[i].size { r := inode[i].size - off; }
      var tot, o := 0, off;
      while tot < r
        invariant 0 <= tot <= r && o == off + tot && |dst| == tot
        invariant bits == old(bits) && blocks == old(blocks) && inode == old(inode) && owner == old(owner)
        invariant logged == old(logged)
        invariant forall x | off <= x < o :: dst[x - off] == ByteAt(inode, blocks, i, x)
        decreases r - tot
      {
        var m := Chunk(o, r - tot);
        var bytes := ReadChunk(i, o, m);
        dst := dst + bytes;
        tot, o := tot + m, o + m;
      }
      BytesAre(inode, blocks, i, inode[i].size);
      forall y | 0 <= y < r ensures dst[y] == Contents(inode, blocks, i)[off..off + r][y] {
        assert dst[(off + y) - off] == ByteAt(inode, blocks, i, off + y);
      }
    }

    lemma AllInRange()
      requires Valid()
      ensures forall j, m | 0 <= j < |inode| && 0 <= m < MAXFILE ::
        Addr(inode, blocks, j, m) != 0 ==> Addr(inode, blocks, j, m) < |blocks|
    {
      forall j, m | 0 <= j < |inode| && 0 <= m < MAXFILE && Addr(inode, blocks, j, m) != 0
        ensures Addr(inode, blocks, j, m) < |blocks|
      {
        AddrInRange(j, m);
      }
    }

    /** One turn of writei's loop: bytes that lie in one block. False is a panic. */
    method WriteChunk(i: nat, o: nat, n: nat, data: seq<byte>) returns (ok: bool, ghost bitmaps: set<LogBlock>)
      requires Valid() && i < |inode| && inode[i].kind != 0
      requires n == o / BSIZE && 0 < |data| && o % BSIZE + |data| <= BSIZE && o + |data| <= MAXFILE * BSIZE
      modifies this`bits, this`blocks, this`inode, this`owner, this`logged
      ensures |inode| == |old(inode)| && |blocks| == |old(blocks)|
      ensures ok <==> old(Room()) >= old(Missing(inode, blocks, i, n, n + 1))
      ensures ok ==> Room() == old(Room()) - old(Missing(inode, blocks, i, n, n + 1))
      ensures !ok ==> Room() == 0
      ensures ok ==> ChunkPut(old(inode), old(blocks), inode, blocks, i, o, n, data)
      ensures ok ==>
        && logged <= old(logged) + bitmaps + {DataBlock(Addr(inode, blocks, i, n))} +
             (if n < NDIRECT then {} else {DataBlock(TableAddr(inode, i))})
        && |bitmaps| <= (if old(Addr(inode, blocks, i, n)) == 0 then 1 else 0)
                      + (if NDIRECT <= n && old(TableAddr(inode, i)) == 0 then 1 else 0)
        && OneBitmap(g, bitmaps)
      ensures ok ==> Journaled(old(OnDisk()), OnDisk())
      ensures ok ==> Valid()
    {
      hide Journaled;
      AllInRange();
      var a;
      a, bitmaps := Bmap(i, n);
      if a.None? { return false, bitmaps; }
      ghost var blocks1, mid := blocks, OnDisk();
      AddrInRange(i, n);
      Overwrite(i, n, a.value, Patch(blocks[a.value], o, data));
      JournaledTrans(old(OnDisk()), mid, OnDisk());
      FrameTrans(old(inode), old(blocks), inode, blocks1, inode, blocks, i, n);
      assert old(Addr(inode, blocks, i, n)) != 0 ==> blocks1 == old(blocks);
      ChunkBytes(g, old(inode), old(blocks), inode, blocks1, blocks, i, o, data);
      ok := true;
    }

    /** Replace the contents of block n of a file, through the log. */
    method Overwrite(i: nat, n: nat, a: nat, b: Block)
      requires Valid() && i < |inode| && n < MAXFILE && inode[i].kind != 0
      requires 0 != a == Addr(inode, blocks, i, n) && a < |blocks|
      modifies this`blocks, this`logged
      ensures blocks == old(blocks)[a := b] && logged == old(logged) + {DataBlock(a)}
      ensures Addr(inode, blocks, i, n) == a && Frame(inode, old(blocks), inode, blocks, i, n)
      ensures Journaled(old(OnDisk()), OnDisk())
      ensures Valid()
    {
      WriteBlock(g, inode, blocks, owner, i, n, b);
      assert inode == inode[i := inode[i].(addrs := inode[i].addrs)];
      StaysSized(inode, blocks, inode, blocks[a := b], i, n);
      blocks := blocks[a := b];
      logged := logged + {DataBlock(a)};
      JournalBlock(old(OnDisk()), OnDisk(), a, b);
    }

    lemma AddrInRange(i: nat, n: nat)
      requires Valid() && i < |inode| && n < MAXFILE && Addr(inode, blocks, i, n) != 0
      ensures Addr(inode, blocks, i, n) < |blocks|
    {
      assert NthOk(inode, blocks, owner, i, n) && BlockOk(g, inode, blocks, owner, Addr(inode, blocks, i, n));
    }

    /** writei on a file or directory. Not ok is the panic of balloc, exactly when the write needs
        more blocks than are free; otherwise -1, or the bytes from off to off + n of this file
        replaced, the inode stored, and no other file touched. Up to three blocks' worth of bytes
        log at most MAXOPBLOCKS blocks, fewer where the bitmap has one block. */
    method Writei(i: nat, src: seq<byte>, off: word) returns (ok: bool, r: int)
      requires Valid() && i < |inode| && inode[i].kind != 0 && |src| < TWO32
      requires inode[i] == dinode[i]
      modifies this
      ensures ok ==> (r == -1 <==> off > old(inode)[i].size || off + |src| > MAXFILE * BSIZE)
      ensures r == -1 && ok ==> unchanged(this)
      ensures ok && r != -1 ==>
        && r == |src| && Put(old(inode), old(blocks), inode, blocks, i, off, off + |src|, src)
        && dinode == old(dinode)[i := inode[i]]
      ensures ok && |src| <= 3 * BSIZE ==> |logged - old(logged)| <= LogLimit(g)
      ensures ok ==> Journaled(old(OnDisk()), OnDisk())
      ensures ok ==> Valid()
      ensures !ok ==> off <= old(inode)[i].size && off + |src| <= MAXFILE * BSIZE && Room() == 0
      ensures off <= old(inode)[i].size && off + |src| <= MAXFILE * BSIZE ==>
        (ok <==> old(Room()) >= old(Needs(inode, blocks, i, off, |src|)))
      ensures !ok ==> Short(old(inode), old(blocks), old(Room()), i, off / BSIZE, EndBlock(off, |src|))
      ensures ok && r != -1 ==> Spends(old(inode), old(blocks), old(Room()), inode, blocks, Room(), i, off / BSIZE,
                                       (off + |src|) / BSIZE, EndBlock(off, |src|))
    {
      hide Owned, Marked, Sized, FileSized, OnlyBytes, Spends, Short, Counted, EndBlock, ByteAt, Missing, Gaps, Put,
        Journaled;
      JournalNone(OnDisk());
      if off > inode[i].size || Wraps(off, |src|) { return true, -1; }
      if off + |src| > MAXFILE * BSIZE { return true, -1; }
      ghost var t;
      ok, t := WriteLoop(i, src, off);
      if !ok {
        FileShort(old(inode), old(blocks), old(Room()), i, off, |src|);
        return false, 0;
      }
      ghost var sofar, inode1, mid := logged, inode, OnDisk();
      SpentAll(old(inode), old(blocks), old(Room()), inode, blocks, Room(), i, off, |src|);
      Extend(i, off + |src|, |src|);
      JournaledTrans(old(OnDisk()), mid, OnDisk());
      WrittenPut(old(inode), old(blocks), inode1, inode, blocks, i, off, src);
      SpendSize(old(inode), old(blocks), old(Room()), inode1, blocks, Room(), inode, i, off / BSIZE,
                (off + |src|) / BSIZE, EndBlock(off, |src|));
      if |src| <= 3 * BSIZE { LogBound(i, old(logged), sofar, off, |src|, t, old(inode), inode1); }
      return true, |src|;
    }

    /** The end of writei: a longer file is stored. */
    method Extend(i: nat, o: nat, n: nat)
      requires Valid() && i < |inode| && inode[i].kind != 0 && Covered(inode, blocks, i, o) && o <= MAXFILE * BSIZE
      requires o <= inode[i].size ==> inode[i] == dinode[i]
      requires n == 0 ==> o <= inode[i].size
      modifies this`inode, this`dinode, this`logged
      ensures inode == old(inode)[i := old(inode)[i].(size := if o > old(inode)[i].size then o else old(inode)[i].size)]
      ensures dinode == old(dinode)[i := inode[i]]
      ensures OnlyBytes(old(inode), blocks, inode, blocks, i, 0, 0)
      ensures TableAddr(inode, i) == TableAddr(old(inode), i)
      ensures logged <= old(logged) + {InodeOf(i)}
      ensures Journaled(old(OnDisk()), OnDisk())
      ensures Valid()
    {
      JournalNone(OnDisk());
      if n > 0 && o > inode[i].size {
        GrowFile(i, o);
        inode := inode[i := inode[i].(size := o)];
        Iupdate(i);
      }
    }

    lemma LogBound(i: nat, before: set<LogBlock>, sofar: set<LogBlock>, off: nat, n: nat, t: Tally, was: seq<Dinode>,
                   inode: seq<Dinode>)
      requires n <= 3 * BSIZE && Counted(t, was, inode, i, off, n, n, sofar, before) && logged <= sofar + {InodeOf(i)}
      requires OneBitmap(g, t.bitmaps)
      ensures |logged - before| <= LogLimit(g)
    {
      if g.size <= BPB { SubsetSize(t.bitmaps, {BitmapBlock(0)}); }
      var all := t.data + t.bitmaps + TableBlock(inode, i) + {InodeOf(i)};
      TallyBound(t, was, inode, i, off, n);
      UnionSize(t.data, t.bitmaps);
      UnionSize(t.data + t.bitmaps, TableBlock(inode, i));
      UnionSize(t.data + t.bitmaps + TableBlock(inode, i), {InodeOf(i)});
      SubsetSize(logged - before, all);
    }

    /** One turn of writei's loop, in terms of the whole write. */
    method WriteTurn(i: nat, src: seq<byte>, off: nat, tot: nat, ghost was: seq<Dinode>, ghost wasBlocks: seq<Block>,
                     ghost before: set<LogBlock>, ghost t: Tally, ghost room: nat)
      returns (ok: bool, m: nat, ghost t': Tally)
      requires Valid() && tot < |src| && off + |src| <= MAXFILE * BSIZE
      requires Written(was, wasBlocks, inode, blocks, i, off, off + tot, src) && inode[i].kind != 0
      requires Counted(t, was, inode, i, off, tot, |src|, logged, before) && OneBitmap(g, t.bitmaps)
      requires Spends(was, wasBlocks, room, inode, blocks, Room(), i, off / BSIZE, (off + tot) / BSIZE,
                      EndBlock(off, |src|))
      modifies this`bits, this`blocks, this`inode, this`owner, this`logged
      ensures !ok ==> Room() == 0 && Short(was, wasBlocks, room, i, off / BSIZE, EndBlock(off, |src|))
      ensures ok ==> 0 < m <= |src| - tot && Spends(was, wasBlocks, room, inode, blocks, Room(), i, off / BSIZE,
                                                    (off + tot + m) / BSIZE, EndBlock(off, |src|))
      ensures ok ==>
        && 0 < m <= |src| - tot
        && Written(was, wasBlocks, inode, blocks, i, off, off + tot + m, src)
        && Counted(t', was, inode, i, off, tot + m, |src|, logged, before) && OneBitmap(g, t'.bitmaps)
      ensures ok ==> Journaled(old(OnDisk()), OnDisk())
      ensures ok ==> Valid()
    {
      hide Owned, Marked, Sized, Fs.Room, Written, Counted, OnlyBytes, Covered, ChunkPut, Spends, Short, Missing,
        Gaps, FileSized, EndBlock, Addr, TableAddr, Chunk, OneBitmap, Journaled;
      WrittenIs(was, wasBlocks, inode, blocks, i, off, off + tot, src);
      var o := off + tot;
      m := Chunk(o, |src| - tot);
      var n := o / BSIZE;
      ghost var inode1, blocks1 := inode, blocks;
      ghost var isNew := Addr(inode, blocks, i, n) == 0;
      MissingIsAligned(inode, blocks, i, o);
      ghost var bitmaps, sofar, free := {}, logged, Room();
      var data := src[tot..tot + m];
      ok, bitmaps := WriteChunk(i, o, n, data);
      if !ok {
        TurnShort(was, wasBlocks, room, inode1, blocks1, free, i, off, |src|, o, n);
        t' := t;
        return;
      }
      t' := TurnDone(i, n, off, tot, m, src, data, was, wasBlocks, room, inode1, blocks1, free, before, sofar, t,
                     isNew, bitmaps);
    }

    lemma TurnDone(i: nat, n: nat, off: nat, tot: nat, m: nat, src: seq<byte>, data: seq<byte>, was: seq<Dinode>,
                   wasBlocks: seq<Block>, room: nat, inode1: seq<Dinode>, blocks1: seq<Block>, free: nat,
                   before: set<LogBlock>, sofar: set<LogBlock>, t: Tally, isNew: bool, bitmaps: set<LogBlock>)
      returns (t': Tally)
      requires n < MAXFILE && tot < |src| && off + |src| <= MAXFILE * BSIZE
      requires m == Chunk(off + tot, |src| - tot) == |data|
      requires data == src[tot..tot + m] && i < |inode1| && FileSized(inode1, blocks1, i)
      requires Written(was, wasBlocks, inode1, blocks1, i, off, off + tot, src)
      requires Counted(t, was, inode1, i, off, tot, |src|, sofar, before)
      requires OneBitmap(g, t.bitmaps) && OneBitmap(g, bitmaps)
      requires Spends(was, wasBlocks, room, inode1, blocks1, free, i, off / BSIZE, n, EndBlock(off, |src|))
      requires ChunkPut(inode1, blocks1, inode, blocks, i, off + tot, n, data)
      requires isNew ==> (off + tot) % BSIZE == 0
      requires |bitmaps| <= (if isNew then 1 else 0) + (if NDIRECT <= n && TableAddr(inode1, i) == 0 then 1 else 0)
      requires i < |inode| && logged <= sofar + bitmaps + {DataBlock(Addr(inode, blocks, i, n))} +
        (if n < NDIRECT then {} else {DataBlock(TableAddr(inode, i))})
      requires Room() == free - Missing(inode1, blocks1, i, n, n + 1)
      ensures 0 < m <= |src| - tot
      ensures Spends(was, wasBlocks, room, inode, blocks, Room(), i, off / BSIZE, (off + tot + m) / BSIZE,
                     EndBlock(off, |src|))
      ensures Written(was, wasBlocks, inode, blocks, i, off, off + tot + m, src)
      ensures Counted(t', was, inode, i, off, tot + m, |src|, logged, before) && OneBitmap(g, t'.bitmaps)
    {
      hide Fs.Room, Written, Counted, ChunkPut, Spends, Missing, EndBlock, FileSized, Addr, TableAddr, OneBitmap;
      TurnSpends(was, wasBlocks, room, inode1, blocks1, free, inode, blocks, Room(), i, off, |src|, off + tot, n, data);
      WrittenStep(was, wasBlocks, inode1, blocks1, inode, blocks, i, off, tot, src, n, data);
      t' := CountTurn(i, n, off, tot, m, |src|, was, inode1, blocks1, data, before, sofar, t, isNew, bitmaps);
    }

    lemma CountTurn(i: nat, n: nat, off: nat, tot: nat, m: nat, len: nat, was: seq<Dinode>,
                    inode1: seq<Dinode>, blocks1: seq<Block>, data: seq<byte>,
                    before: set<LogBlock>, mid: set<LogBlock>, t: Tally, isNew: bool, bitmaps: set<LogBlock>)
      returns (t': Tally)
      requires i < |was| && i < |inode1| && i < |inode| && n < MAXFILE && tot < len && m == Chunk(off + tot, len - tot)
      requires Counted(t, was, inode1, i, off, tot, len, mid, before)
      requires OneBitmap(g, t.bitmaps) && OneBitmap(g, bitmaps)
      requires ChunkPut(inode1, blocks1, inode, blocks, i, off + tot, n, data)
      requires isNew ==> (off + tot) % BSIZE == 0
      requires |bitmaps| <= (if isNew then 1 else 0) + (if NDIRECT <= n && TableAddr(inode1, i) == 0 then 1 else 0)
      requires logged <= mid + bitmaps + {DataBlock(Addr(inode, blocks, i, n))} +
        (if n < NDIRECT then {} else {DataBlock(TableAddr(inode, i))})
      ensures Counted(t', was, inode, i, off, tot + m, len, logged, before) && OneBitmap(g, t'.bitmaps)
    {
      var d := DataBlock(Addr(inode, blocks, i, n));
      TallyStep(t, was, inode1, inode, i, off, tot, len, m, isNew, d, bitmaps);
      t' := Tally(t.turns + 1, t.data + {d}, t.bitmaps + bitmaps);
    }

    /** The loop of writei. */
    method WriteLoop(i: nat, src: seq<byte>, off: nat) returns (ok: bool, ghost t: Tally)
      requires Valid() && i < |inode| && inode[i].kind != 0
      requires off <= inode[i].size && off + |src| <= MAXFILE * BSIZE
      modifies this`bits, this`blocks, this`inode, this`owner, this`logged
      ensures !ok ==> Room() == 0 && Short(old(inode), old(blocks), old(Room()), i, off / BSIZE, EndBlock(off, |src|))
      ensures ok ==>
        Spends(old(inode), old(blocks), old(Room()), inode, blocks, Room(), i, off / BSIZE, (off + |src|) / BSIZE,
                            EndBlock(off, |src|))
      ensures ok ==>
        && Written(old(inode), old(blocks), inode, blocks, i, off, off + |src|, src)
        && Counted(t, old(inode), inode, i, off, |src|, |src|, logged, old(logged)) && OneBitmap(g, t.bitmaps)
      ensures ok ==> Journaled(old(OnDisk()), OnDisk())
      ensures ok ==> Valid()
    {
      hide Owned, Marked, Sized, Fs.Room, OnlyBytes, Spends, Short, Covered, Counted, EndBlock, ByteAt, Journaled;
      JournalNone(OnDisk());
      var tot := 0;
      t := Tally(0, {}, {});
      WriteStart(inode, blocks, i, off, src, logged);
      SpendNone(inode, blocks, Room(), i, off / BSIZE, EndBlock(off, |src|));
      while tot < |src|
        invariant 0 <= tot <= |src|
        invariant Valid() && Written(old(inode), old(blocks), inode, blocks, i, off, off + tot, src)
        invariant Counted(t, old(inode), inode, i, off, tot, |src|, logged, old(logged)) && OneBitmap(g, t.bitmaps)
        invariant Spends(old(inode), old(blocks), old(Room()), inode, blocks, Room(), i, off / BSIZE,
                         (off + tot) / BSIZE,
                         EndBlock(off, |src|))
        invariant Journaled(old(OnDisk()), OnDisk())
        decreases |src| - tot
      {
        var m;
        ghost var mid := OnDisk();
        ok, m, t := WriteTurn(i, src, off, tot, old(inode), old(blocks), old(logged), t, old(Room()));
        if !ok { return; }
        JournaledTrans(old(OnDisk()), mid, OnDisk());
        tot := tot + m;
      }
      ok := true;
    }

    lemma GrowFile(i: nat, o: nat)
      requires Valid() && i < |inode| && inode[i].kind != 0 && Covered(inode, blocks, i, o) && o <= MAXFILE * BSIZE
      ensures
        var inode' := inode[i := inode[i].(size := o)];
        && Owned(g, inode', blocks, owner) && Sized(inode', blocks)
        && OnlyBytes(inode, blocks, inode', blocks, i, 0, 0)
    {
      var d: Dinode := inode[i].(size := o);
      SamePlaces(g, inode, blocks, owner, i, d);
      var inode' := inode[i := d];
      forall j | 0 <= j < |inode| ensures FileSized(inode', blocks, j) {
        assert FileSized(inode, blocks, j);
      }
    }

    /** One transaction of filewrite. */
    method WriteOp(i: nat, src: seq<byte>, off: word) returns (ok: bool, r: int)
      requires Valid() && i < |inode| && inode[i].kind != 0 && 0 < |src| <= 3 * BSIZE
      requires inode[i] == dinode[i]
      modifies this
      ensures ok ==> (r == -1 <==> off > old(inode)[i].size || off + |src| > MAXFILE * BSIZE)
      ensures ok && r == -1 ==> inode == old(inode) && blocks == old(blocks) && Room() == old(Room())
      ensures ok && r != -1 ==> r == |src| && Put(old(inode), old(blocks), inode, blocks, i, off, off + |src|, src)
      ensures ok ==> |dinode| == |inode| == |old(inode)| && inode[i] == dinode[i]
      ensures ok ==> |logged| <= LogLimit(g)
      ensures ok ==> Journaled(old(OnDisk()).(logged := {}), OnDisk())
      ensures ok ==> Valid()
      ensures !ok ==> off <= old(inode)[i].size && off + |src| <= MAXFILE * BSIZE && Room() == 0
      ensures off <= old(inode)[i].size && off + |src| <= MAXFILE * BSIZE ==>
        (ok <==> old(Room()) >= old(Needs(inode, blocks, i, off, |src|)))
      ensures !ok ==> Short(old(inode), old(blocks), old(Room()), i, off / BSIZE, EndBlock(off, |src|))
      ensures ok && r != -1 ==> Spends(old(inode), old(blocks), old(Room()), inode, blocks, Room(), i, off / BSIZE,
                                       (off + |src|) / BSIZE, EndBlock(off, |src|))
    {
      hide Needs, Spends, Short, Put, EndBlock;
      logged := {};
      ok, r := Writei(i, src, off);
      assert logged - {} == logged;
    }

    /** One turn of filewrite's loop: n bytes of src from k on, in terms of the whole write. */
    method FileTurn(i: nat, src: seq<byte>, off: nat, k: nat, n: nat, ghost was: seq<Dinode>,
                    ghost wasBlocks: seq<Block>, ghost room: nat, ghost w: nat)
      returns (ok: bool, r: int)
      requires Valid() && i < |inode| && inode[i].kind != 0 && inode[i] == dinode[i] && off + k < TWO32
      requires 0 < n <= 3 * BSIZE && k + n <= |src| && w <= |src|
      requires off + k <= inode[i].size && off + k + n <= MAXFILE * BSIZE ==> k + n <= w
      requires FileDone(was, wasBlocks, room, inode, blocks, Room(), i, off, k, src[..w])
      modifies this
      ensures ok ==> |dinode| == |inode| == |old(inode)| && inode[i] == dinode[i] && inode[i].kind == old(inode)[i].kind
      ensures ok ==> |logged| <= LogLimit(g) && Valid()
      ensures ok ==> (r == -1 <==> off + k > old(inode)[i].size || off + k + n > MAXFILE * BSIZE)
      ensures ok && r == -1 ==> inode == old(inode) && blocks == old(blocks) && Room() == old(Room())
      ensures ok && r != -1 ==>
        r == n && k + n <= w && FileDone(was, wasBlocks, room, inode, blocks, Room(), i, off, k + n, src[..w])
      ensures !ok ==> Room() == 0 && Short(was, wasBlocks, room, i, off / BSIZE, EndBlock(off, w))
      ensures !ok ==> off + k <= old(inode)[i].size && off + k + n <= MAXFILE * BSIZE
    {
      hide Fs.Valid, Fs.Room, FileDone, Spends, Short, EndBlock, Needs, OnlyBytes, ByteAt;
      ghost var inode1, blocks1, free := inode, blocks, Room();
      if k + n <= w { EndBlocks(off, w, off + k, n); }
      FileSpends(was, wasBlocks, room, inode, blocks, free, i, off, k, src[..w]);
      var more := src[k..k + n];
      ok, r := WriteOp(i, more, off + k);
      if !ok {
        ShortTrans(was, wasBlocks, room, inode1, blocks1, free, i, off / BSIZE, (off + k) / BSIZE,
                   EndBlock(off + k, n), EndBlock(off, w));
      } else if r >= 0 {
        assert more == src[..w][k..k + n];
        FileStep(was, wasBlocks, room, inode1, blocks1, free, inode, blocks, Room(), i, off, k, n, src[..w], more);
      }
    }

    /** filewrite on an inode, from file offset `off`: chunks of at most 3 blocks, each in a
        transaction of its own. `done` bytes got written; `sizes` lists how many blocks each
        transaction logged. Not ok is the panic of balloc, exactly when the bytes that can arrive
        need more blocks than are free. */
    method Filewrite(i: nat, src: seq<byte>, off: word)
      returns (ok: bool, r: int, off': nat, ghost done: nat, ghost sizes: seq<nat>)
      requires Valid() && i < |inode| && inode[i].kind != 0 && |src| < TWO32 / 2
      requires inode[i] == dinode[i]
      modifies this
      ensures done <= |src| && off' == off + done
      ensures ok ==> r == if done == |src| then |src| else -1
      ensures ok ==> (r != -1 <==> |src| == 0 || (off <= old(inode)[i].size && off + |src| <= MAXFILE * BSIZE))
      ensures ok ==> done == Arrives(off, |src|, old(inode)[i].size)
      ensures ok && done == 0 ==> inode == old(inode) && blocks == old(blocks)
      ensures ok && done > 0 ==> Put(old(inode), old(blocks), inode, blocks, i, off, off + done, src)
      ensures forall k | 0 <= k < |sizes| :: sizes[k] <= LogLimit(g)
      ensures ok ==> |dinode| == |inode| == |old(inode)| && inode[i] == dinode[i]
      ensures ok ==> Valid()
      ensures !ok ==> off <= old(inode)[i].size && Room() == 0
      ensures off <= old(inode)[i].size ==>
        var w := Arrives(off, |src|, old(inode)[i].size);
        && 0 <= w && off + w <= MAXFILE * BSIZE
        && (ok <==> old(Room()) >= old(Needs(inode, blocks, i, off, w)))
    {
      hide Fs.Valid, Fs.Room, FileDone, Put, Needs, Short, EndBlock, Arrives, LogLimit, Whole;
      SizeOk(i);
      var k := 0;
      ok, off', done, sizes := true, off, 0, [];
      ghost var size, w := inode[i].size, Arrives(off, |src|, inode[i].size);
      ArrivesWithin(off, |src|, size);
      FileStart(inode, blocks, Room(), i, off, src[..w]);
      while k < |src|
        invariant 0 <= k <= w && done == k && off' == off + k && ok && off' < TWO32
        invariant Whole(k, |src|)
        invariant Valid() && |dinode| == |inode| == |old(inode)| && inode[i] == dinode[i] && inode[i].kind != 0
        invariant FileDone(old(inode), old(blocks), old(Room()), inode, blocks, Room(), i, off, k, src[..w])
        invariant forall k | 0 <= k < |sizes| :: sizes[k] <= LogLimit(g)
        decreases |src| - k
      {
        var n1 := |src| - k;
        if n1 > CHUNK { n1 := CHUNK; }
        FileIs(old(inode), old(blocks), old(Room()), inode, blocks, Room(), i, off, k, src[..w]);
        if off <= size { NextArrives(off, |src|, size, k, n1); }
        ok, r := FileTurn(i, src, off, k, n1, old(inode), old(blocks), old(Room()), w);
        if !ok {
          FileShort(old(inode), old(blocks), old(Room()), i, off, w);
          return;
        }
        sizes := sizes + [|logged|];
        if r < 0 { break; }
        off' := off' + r;
        k := k + r;
        done := k;
      }
      FileEnd(i, off, k, src, w, old(inode), old(blocks), old(Room()));
      r := if k == |src| then |src| else -1;
    }

    lemma SizeOk(i: nat)
      requires Valid() && i < |inode|
      ensures inode[i].size <= MAXFILE * BSIZE && |dinode| == |inode|
    {
      assert FileSized(inode, blocks, i);
    }

    lemma FileEnd(i: nat, off: nat, k: nat, src: seq<byte>, w: nat, was: seq<Dinode>, wasBlocks: seq<Block>, room: nat)
      requires Valid() && k == w <= |src|
      requires FileDone(was, wasBlocks, room, inode, blocks, Room(), i, off, k, src[..w])
      ensures i < |was| && i < |inode|
      ensures k == 0 ==> inode == was && blocks == wasBlocks
      ensures k > 0 ==> Put(was, wasBlocks, inode, blocks, i, off, off + k, src)
      ensures off <= was[i].size && off + k <= MAXFILE * BSIZE ==> room >= Needs(was, wasBlocks, i, off, k)
    {
      hide Owned, Marked, Sized, Fs.Room, FileDone, Put, Needs;
      FileIs(was, wasBlocks, room, inode, blocks, Room(), i, off, k, src[..w]);
      if k > 0 { PutPrefix(was, wasBlocks, inode, blocks, i, off, src[..w], src); }
      if off <= was[i].size && off + k <= MAXFILE * BSIZE {
        FileFits(was, wasBlocks, room, inode, blocks, Room(), i, off, src[..w]);
      }
    }

    lemma TableInRange(i: nat)
      requires Valid() && i < |inode| && TableAddr(inode, i) != 0
      ensures TableAddr(inode, i) < |blocks|
    {
      assert TableOk(inode, owner, i) && BlockOk(g, inode, blocks, owner, TableAddr(inode, i));
    }
  }
}
