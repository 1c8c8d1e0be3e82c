/** The free-block bitmap, as the bytes of its blocks one after the other: the bit of block
    b is bit b % 8 of byte b / 8 (BPB is a multiple of 8). */
module Bitmap {

  function Mask(b: nat): (m: bv8)
  {
    1 << (b % 8)
  }

  predicate Test(bm: seq<bv8>, b: nat)
    requires b < 8 * |bm|
  {
    bm[b / 8] & Mask(b) != 0
  }

  function Set(bm: seq<bv8>, b: nat): (r: seq<bv8>)
    requires b < 8 * |bm|
    ensures |r| == |bm|
  {
    bm[b / 8 := bm[b / 8] | Mask(b)]
  }

  function Clear(bm: seq<bv8>, b: nat): (r: seq<bv8>)
    requires b < 8 * |bm|
    ensures |r| == |bm|
  {
    bm[b / 8 := bm[b / 8] & !Mask(b)]
  }

  lemma MasksApart(x: bv8, i: nat, j: nat)
    requires i < 8 && j < 8
    ensures ((x | (1 << i)) & (1 << j) != 0) == (i == j || x & (1 << j) != 0)
    ensures ((x & !(1 << i)) & (1 << j) != 0) == (i != j && x & (1 << j) != 0)
  {
    assert i == 0 || i == 1 || i == 2 || i == 3 || i == 4 || i == 5 || i == 6 || i == 7;
    assert j == 0 || j == 1 || j == 2 || j == 3 || j == 4 || j == 5 || j == 6 || j == 7;
  }

  /** Setting a bit sets that bit and no other. */
  lemma SetTest(bm: seq<bv8>, b: nat, c: nat)
    requires b < 8 * |bm| && c < 8 * |bm|
    ensures Test(Set(bm, b), c) == (b == c || Test(bm, c))
  {
    if b / 8 == c / 8 { MasksApart(bm[b / 8], b % 8, c % 8); }
  }

  /** The free blocks. */
  ghost function Zeros(bm: seq<bv8>, size: nat): set<nat>
    requires size <= 8 * |bm|
  {
    set b: nat | b < size && !Test(bm, b)
  }

  lemma SetZeros(bm: seq<bv8>, b: nat, size: nat)
    requires b < size <= 8 * |bm|
    ensures Zeros(Set(bm, b), size) == Zeros(bm, size) - {b}
  {
    forall c: nat | c < size ensures Test(Set(bm, b), c) == (b == c || Test(bm, c)) { SetTest(bm, b, c); }
  }

  /** The scan of balloc: bitmap block by bitmap block, bit by bit. `size` if none is free. */
  method FirstFree(bm: seq<bv8>, size: nat, bpb: nat) returns (r: nat)
    requires size <= 8 * |bm| && 0 < bpb
    ensures r <= size && (r < size ==> !Test(bm, r))
    ensures forall c: nat | c < r :: Test(bm, c)
  {
    var b := 0;
    while b < size
      invariant 0 <= b
      invariant forall c: nat | c < b && c < size :: Test(bm, c)
      decreases size - b
    {
      var bi := 0;
      while bi < bpb && b + bi < size
        invariant 0 <= bi <= bpb
        invariant forall c: nat | c < b + bi && c < size :: Test(bm, c)
      {
        if !Test(bm, b + bi) { return b + bi; }
        bi := bi + 1;
      }
      b := b + bpb;
    }
    return size;
  }

  lemma ClearTest(bm: seq<bv8>, b: nat, c: nat)
    requires b < 8 * |bm| && c < 8 * |bm|
    ensures Test(Clear(bm, b), c) == (b != c && Test(bm, c))
  {
    if b / 8 == c / 8 { MasksApart(bm[b / 8], b % 8, c % 8); }
  }
}

/** Which block belongs to which place in which inode, and the bytes of a file. */
module FsSpec {
  import opened Basics
  import opened Words
  import opened Bitmap

  const NDIRECT := 12
  const NINDIRECT := BSIZE / 4
  const MAXFILE := NDIRECT + NINDIRECT
  const BPB := BSIZE * 8
  const IPB := 4

  /** Where data blocks lie: everything below `start` is metadata. */
  datatype Geometry = Geometry(start: nat, size: nat)

  datatype RawInode = Inode(kind: int, major: int, minor: int, nlink: int, size: nat, addrs: seq<nat>, mode: int)

  /** struct dinode; `kind` is its type field, 0 when the inode is free. */
  type Dinode = d: RawInode | |d.addrs| == NDIRECT + 1 witness EMPTY

  const EMPTY := Inode(0, 0, 0, 0, 0, seq(NDIRECT + 1, _ => 0), 0)

  /** Places a block number is stored: the n-th block of a file, or its indirect block. */
  datatype Slot = Nth(inum: nat, n: nat) | Table(inum: nat)

  type Owners = map<nat, Slot>

  /** Block number of the n-th block of a file; 0 if it has none. */
  function Addr(inode: seq<Dinode>, blocks: seq<Block>, inum: nat, n: nat): (b: nat)
    requires inum < |inode| && n < MAXFILE
  {
    if n < NDIRECT then inode[inum].addrs[n] else
      var t := inode[inum].addrs[NDIRECT];
      if t == 0 || |blocks| <= t then 0 else Word(blocks[t], n - NDIRECT)
  }

  function TableAddr(inode: seq<Dinode>, inum: nat): (b: nat)
    requires inum < |inode|
  {
    inode[inum].addrs[NDIRECT]
  }

  ghost predicate Holds(inode: seq<Dinode>, blocks: seq<Block>, s: Slot, b: nat)
  {
    && s.inum < |inode|
    && (s.Nth? ==> s.n < MAXFILE && Addr(inode, blocks, s.inum, s.n) == b)
    && (s.Table? ==> TableAddr(inode, s.inum) == b)
  }

  /** Every block number stored anywhere is stored in one place only and is a data block;
      `owner` lists those blocks, each with its place. */
  ghost predicate Owned(g: Geometry, inode: seq<Dinode>, blocks: seq<Block>, owner: Owners)
  {
    && 0 < g.start && |blocks| == g.size <= TWO32
    && (forall i, n {:trigger NthOk(inode, blocks, owner, i, n)} | 0 <= i < |inode| && 0 <= n < MAXFILE ::
          NthOk(inode, blocks, owner, i, n))
    && (forall i {:trigger TableOk(inode, owner, i)} | 0 <= i < |inode| :: TableOk(inode, owner, i))
    && (forall b {:trigger BlockOk(g, inode, blocks, owner, b)} | b in owner :: BlockOk(g, inode, blocks, owner, b))
  }

  ghost predicate NthOk(inode: seq<Dinode>, blocks: seq<Block>, owner: Owners, i: nat, n: nat)
    requires i < |inode| && n < MAXFILE
  {
    var b := Addr(inode, blocks, i, n);
    b != 0 ==> b in owner && owner[b] == Nth(i, n)
  }

  ghost predicate TableOk(inode: seq<Dinode>, owner: Owners, i: nat)
    requires i < |inode|
  {
    var b := TableAddr(inode, i);
    b != 0 ==> b in owner && owner[b] == Table(i)
  }

  ghost predicate BlockOk(g: Geometry, inode: seq<Dinode>, blocks: seq<Block>, owner: Owners, b: nat)
    requires b in owner
  {
    g.start <= b < g.size && Holds(inode, blocks, owner[b], b)
  }

  /** The bitmap marks the metadata and the owned blocks, and nothing else. */
  ghost predicate Marked(g: Geometry, bits: seq<bv8>, owner: Owners)
  {
    && g.size <= 8 * |bits|
    && forall b: nat | b < g.size :: Test(bits, b) <==> b < g.start || b in owner
  }

  /** A file has all blocks below its size; a free inode has none at all. */
  ghost predicate Sized(inode: seq<Dinode>, blocks: seq<Block>)
  {
    forall i | 0 <= i < |inode| :: FileSized(inode, blocks, i)
  }

  ghost predicate FileSized(inode: seq<Dinode>, blocks: seq<Block>, i: nat)
    requires i < |inode|
  {
    && inode[i].size <= MAXFILE * BSIZE
    && (forall n | 0 <= n < MAXFILE && n * BSIZE < inode[i].size :: Addr(inode, blocks, i, n) != 0)
    && (inode[i].kind == 0 ==> inode[i].size == 0 && forall k | 0 <= k <= NDIRECT :: inode[i].addrs[k] == 0)
  }

  /** Nothing about the file blocks other than the n-th of inum has changed. */
  ghost predicate Frame(inode: seq<Dinode>, blocks: seq<Block>, inode': seq<Dinode>, blocks': seq<Block>,
                        inum: nat, n: nat)
  {
    && |inode'| == |inode| && |blocks'| == |blocks|
    && forall i, m | 0 <= i < |inode| && 0 <= m < MAXFILE && !(i == inum && m == n) ::
         Kept(inode, blocks, inode', blocks', i, m)
  }

  ghost predicate Kept(inode: seq<Dinode>, blocks: seq<Block>, inode': seq<Dinode>, blocks': seq<Block>, i: nat, m: nat)
    requires i < |inode| == |inode'| && m < MAXFILE && |blocks| == |blocks'|
  {
    var a := Addr(inode, blocks, i, m);
    Addr(inode', blocks', i, m) == a && (0 != a < |blocks| ==> blocks'[a] == blocks[a])
  }

  /** A new block linked into a direct slot. */
  lemma LinkDirect(g: Geometry, inode: seq<Dinode>, blocks: seq<Block>, owner: Owners, i: nat, n: nat, b: nat)
    requires Owned(g, inode, blocks, owner) && i < |inode| && n < NDIRECT
    requires Addr(inode, blocks, i, n) == 0 && g.start <= b < g.size && b !in owner
    ensures
      var inode' := inode[i := inode[i].(addrs := inode[i].addrs[n := b])];
      var blocks' := blocks[b := ZERO];
      && Owned(g, inode', blocks', owner[b := Nth(i, n)])
      && Addr(inode', blocks', i, n) == b
      && Frame(inode, blocks, inode', blocks', i, n)
  {
    var inode' := inode[i := inode[i].(addrs := inode[i].addrs[n := b])];
    var blocks' := blocks[b := ZERO];
    SameAddrs(g, inode, blocks, owner, inode', blocks', i, n, b);
    StillOwned(g, inode, blocks, owner, inode', blocks', Nth(i, n), b);
  }

  /** If inode i alone changes its direct slots and only the unowned block b changes, no
      other slot moves. */
  lemma SameAddrs(g: Geometry, inode: seq<Dinode>, blocks: seq<Block>, owner: Owners,
                  inode': seq<Dinode>, blocks': seq<Block>, i: nat, n: nat, b: nat)
    requires Owned(g, inode, blocks, owner) && i < |inode| && n < NDIRECT && b < |blocks| && b !in owner
    requires |inode'| == |inode| && |blocks'| == |blocks|
    requires forall j | 0 <= j < |inode| && j != i :: inode'[j] == inode[j]
    requires forall k | 0 <= k <= NDIRECT && k != n :: inode'[i].addrs[k] == inode[i].addrs[k]
    requires forall c | 0 <= c < |blocks| && c != b :: blocks'[c] == blocks[c]
    ensures Frame(inode, blocks, inode', blocks', i, n)
  {
    forall j, m | 0 <= j < |inode| && 0 <= m < MAXFILE && !(j == i && m == n)
      ensures Kept(inode, blocks, inode', blocks', j, m)
    {
      assert NthOk(inode, blocks, owner, j, m) && TableOk(inode, owner, j);
    }
  }

  /** Ownership after one slot that held nothing got the block b, all else kept. */
  lemma StillOwned(g: Geometry, inode: seq<Dinode>, blocks: seq<Block>, owner: Owners,
                   inode': seq<Dinode>, blocks': seq<Block>, s: Slot, b: nat)
    requires Owned(g, inode, blocks, owner) && g.start <= b < g.size && b !in owner
    requires |inode'| == |inode| && |blocks'| == |blocks|
    requires Holds(inode, blocks, s, 0) && Holds(inode', blocks', s, b)
    requires forall i, n | 0 <= i < |inode| && 0 <= n < MAXFILE && s != Nth(i, n) ::
      Kept(inode, blocks, inode', blocks', i, n)
    requires forall i | 0 <= i < |inode| && s != Table(i) :: TableAddr(inode', i) == TableAddr(inode, i)
    ensures Owned(g, inode', blocks', owner[b := s])
  {
    var owner' := owner[b := s];
    forall i, n | 0 <= i < |inode| && 0 <= n < MAXFILE ensures NthOk(inode', blocks', owner', i, n) {
      if s != Nth(i, n) {
        assert NthOk(inode, blocks, owner, i, n) && Kept(inode, blocks, inode', blocks', i, n);
      }
    }
    forall i | 0 <= i < |inode| ensures TableOk(inode', owner', i) {
      assert TableOk(inode, owner, i);
    }
    forall c | c in owner' ensures BlockOk(g, inode', blocks', owner', c) {
      if c != b {
        assert BlockOk(g, inode, blocks, owner, c);
        if owner[c].Nth? { assert Kept(inode, blocks, inode', blocks', owner[c].inum, owner[c].n); }
      }
    }
  }

  lemma EmptyEntry(inode: seq<Dinode>, blocks: seq<Block>, i: nat, n: nat)
    requires i < |inode| && NDIRECT <= n < MAXFILE
    requires TableAddr(inode, i) < |blocks| && Word(blocks[TableAddr(inode, i)], n - NDIRECT) == 0
    ensures Addr(inode, blocks, i, n) == 0
  {
  }

  /** A new zeroed indirect block: it brings no file blocks with it. */
  lemma LinkTable(g: Geometry, inode: seq<Dinode>, blocks: seq<Block>, owner: Owners, i: nat, b: nat, zero: Block)
    requires Owned(g, inode, blocks, owner) && i < |inode|
    requires forall j | 0 <= j < WORDS :: Word(zero, j) == 0
    requires TableAddr(inode, i) == 0 && g.start <= b < g.size && b !in owner
    ensures
      var inode' := inode[i := inode[i].(addrs := inode[i].addrs[NDIRECT := b])];
      var blocks' := blocks[b := zero];
      && Owned(g, inode', blocks', owner[b := Table(i)])
      && Frame(inode, blocks, inode', blocks', i, MAXFILE)
  {
    var inode' := inode[i := inode[i].(addrs := inode[i].addrs[NDIRECT := b])];
    var blocks' := blocks[b := zero];
    forall j, m | 0 <= j < |inode| && 0 <= m < MAXFILE
      ensures Kept(inode, blocks, inode', blocks', j, m)
    {
      assert NthOk(inode, blocks, owner, j, m) && TableOk(inode, owner, j);
      if j == i && NDIRECT <= m {
        EmptyEntry(inode', blocks', j, m);
      } else {
        assert Addr(inode', blocks', j, m) == Addr(inode, blocks, j, m);
      }
    }
    StillOwned(g, inode, blocks, owner, inode', blocks', Table(i), b);
  }

  /** A new block linked into a slot of the indirect block. */
  lemma LinkEntry(g: Geometry, inode: seq<Dinode>, blocks: seq<Block>, owner: Owners, i: nat, n: nat, b: nat)
    requires Owned(g, inode, blocks, owner) && i < |inode| && NDIRECT <= n < MAXFILE
    requires TableAddr(inode, i) != 0 && Addr(inode, blocks, i, n) == 0 && g.start <= b < g.size && b !in owner
    ensures
      var t := TableAddr(inode, i);
      && t < |blocks| && t != b && t in owner
      && var blocks' := blocks[b := ZERO][t := PutWord(blocks[t], n - NDIRECT, b)];
         && Owned(g, inode, blocks', owner[b := Nth(i, n)])
         && Addr(inode, blocks', i, n) == b
         && Frame(inode, blocks, inode, blocks', i, n)
  {
    var t := TableAddr(inode, i);
    assert TableOk(inode, owner, i) && BlockOk(g, inode, blocks, owner, t);
    var blocks' := blocks[b := ZERO][t := PutWord(blocks[t], n - NDIRECT, b)];
    PutWordGet(blocks[t], n - NDIRECT, b, n - NDIRECT);
    forall j, m | 0 <= j < |inode| && 0 <= m < MAXFILE && !(j == i && m == n)
      ensures Kept(inode, blocks, inode, blocks', j, m)
    {
      assert NthOk(inode, blocks, owner, j, m) && TableOk(inode, owner, j);
      if j == i && NDIRECT <= m { PutWordGet(blocks[t], n - NDIRECT, b, m - NDIRECT); }
    }
    StillOwned(g, inode, blocks, owner, inode, blocks', Nth(i, n), b);
  }

  /** Overwriting a file's block changes no pointer and no other file block. */
  lemma WriteBlock(g: Geometry, inode: seq<Dinode>, blocks: seq<Block>, owner: Owners, i: nat, n: nat, x: Block)
    requires Owned(g, inode, blocks, owner) && i < |inode| && n < MAXFILE && Addr(inode, blocks, i, n) != 0
    ensures
      var p := Addr(inode, blocks, i, n);
      && p < |blocks|
      && var blocks' := blocks[p := x];
         && Owned(g, inode, blocks', owner)
         && Addr(inode, blocks', i, n) == p
         && Frame(inode, blocks, inode, blocks', i, n)
  {
    var p := Addr(inode, blocks, i, n);
    assert NthOk(inode, blocks, owner, i, n) && BlockOk(g, inode, blocks, owner, p);
    var blocks' := blocks[p := x];
    forall j, m | 0 <= j < |inode| && 0 <= m < MAXFILE
      ensures Addr(inode, blocks', j, m) == Addr(inode, blocks, j, m) && NthOk(inode, blocks', owner, j, m)
      ensures !(j == i && m == n) ==> Kept(inode, blocks, inode, blocks', j, m)
    {
      assert NthOk(inode, blocks, owner, j, m) && TableOk(inode, owner, j);
    }
    forall j | 0 <= j < |inode| ensures TableOk(inode, owner, j) {
    }
    forall c | c in owner ensures BlockOk(g, inode, blocks', owner, c) {
      assert BlockOk(g, inode, blocks, owner, c);
    }
  }

  /** Cutting all the blocks of one inode off. */
  lemma UnlinkAll(g: Geometry, inode: seq<Dinode>, blocks: seq<Block>, owner: Owners, i: nat, d: Dinode)
    requires Owned(g, inode, blocks, owner) && i < |inode|
    requires forall k | 0 <= k <= NDIRECT :: d.addrs[k] == 0
    ensures
      var inode' := inode[i := d];
      && Owned(g, inode', blocks, map b | b in owner && owner[b].inum != i :: owner[b])
      && forall j, m | 0 <= j < |inode| && 0 <= m < MAXFILE ::
           Addr(inode', blocks, j, m) == if j == i then 0 else Addr(inode, blocks, j, m)
  {
    var inode' := inode[i := d];
    var owner' := map b | b in owner && owner[b].inum != i :: owner[b];
    forall j, m | 0 <= j < |inode| && 0 <= m < MAXFILE
      ensures Addr(inode', blocks, j, m) == if j == i then 0 else Addr(inode, blocks, j, m)
      ensures NthOk(inode', blocks, owner', j, m)
    {
      assert NthOk(inode, blocks, owner, j, m);
    }
    forall j | 0 <= j < |inode| ensures TableOk(inode', owner', j) {
      assert TableOk(inode, owner, j);
    }
    forall c | c in owner' ensures BlockOk(g, inode', blocks, owner', c) {
      assert BlockOk(g, inode, blocks, owner, c);
    }
  }

  /** Changing an inode's other fields moves no block. */
  lemma SamePlaces(g: Geometry, inode: seq<Dinode>, blocks: seq<Block>, owner: Owners, i: nat, d: Dinode)
    requires Owned(g, inode, blocks, owner) && i < |inode| && d.addrs == inode[i].addrs
    ensures
      var inode' := inode[i := d];
      && Owned(g, inode', blocks, owner)
      && forall j, m | 0 <= j < |inode| && 0 <= m < MAXFILE :: Addr(inode', blocks, j, m) == Addr(inode, blocks, j, m)
  {
    var inode' := inode[i := d];
    forall j, m | 0 <= j < |inode| && 0 <= m < MAXFILE
      ensures Addr(inode', blocks, j, m) == Addr(inode, blocks, j, m) && NthOk(inode', blocks, owner, j, m)
    {
      assert NthOk(inode, blocks, owner, j, m);
    }
    forall j | 0 <= j < |inode| ensures TableOk(inode', owner, j) {
      assert TableOk(inode, owner, j);
    }
    forall c | c in owner ensures BlockOk(g, inode', blocks, owner, c) {
      assert BlockOk(g, inode, blocks, owner, c);
    }
  }

  // ---- blocks a write will need ----

  /** Blocks n up to hi of the file that are not there. */
  ghost function Gaps(inode: seq<Dinode>, blocks: seq<Block>, i: nat, n: nat, hi: nat): nat
    requires i < |inode| && hi <= MAXFILE
    decreases hi - n
  {
    if n >= hi then 0 else (if Addr(inode, blocks, i, n) == 0 then 1 else 0) + Gaps(inode, blocks, i, n + 1, hi)
  }

  /** The same with the indirect block, if it is needed and not there. */
  ghost function Missing(inode: seq<Dinode>, blocks: seq<Block>, i: nat, n: nat, hi: nat): nat
    requires i < |inode| && hi <= MAXFILE
  {
    Gaps(inode, blocks, i, n, hi) + if n < hi && NDIRECT < hi && TableAddr(inode, i) == 0 then 1 else 0
  }

  lemma MissingOne(inode: seq<Dinode>, blocks: seq<Block>, i: nat, n: nat)
    requires i < |inode| && n < MAXFILE
    ensures Missing(inode, blocks, i, n, n + 1) ==
      (if Addr(inode, blocks, i, n) == 0 then 1 else 0) + (if NDIRECT <= n && TableAddr(inode, i) == 0 then 1 else 0)
  {
    assert Gaps(inode, blocks, i, n + 1, n + 1) == 0;
  }

  lemma {:induction false} GapsKept(inode: seq<Dinode>, blocks: seq<Block>, inode': seq<Dinode>, blocks': seq<Block>,
                                    i: nat, n: nat, hi: nat)
    requires i < |inode| && i < |inode'| && hi <= MAXFILE
    requires forall m | n <= m < hi :: Addr(inode', blocks', i, m) == Addr(inode, blocks, i, m)
    ensures Gaps(inode', blocks', i, n, hi) == Gaps(inode, blocks, i, n, hi)
    decreases hi - n
  {
    if n < hi { GapsKept(inode, blocks, inode', blocks', i, n + 1, hi); }
  }

  /** Getting block n of a file takes what was missing for it. */
  lemma MissingStep(inode: seq<Dinode>, blocks: seq<Block>, inode': seq<Dinode>, blocks': seq<Block>, i: nat, n: nat,
                    hi: nat)
    requires i < |inode| && n < hi <= MAXFILE && Frame(inode, blocks, inode', blocks', i, n)
    requires Addr(inode', blocks', i, n) != 0
    requires n < NDIRECT || TableAddr(inode, i) != 0 ==> TableAddr(inode', i) == TableAddr(inode, i)
    requires NDIRECT <= n ==> TableAddr(inode', i) != 0
    ensures Missing(inode', blocks', i, n, hi) == Missing(inode, blocks, i, n, hi) - Missing(inode, blocks, i, n, n + 1)
    ensures Missing(inode', blocks', i, n + 1, hi) == Missing(inode', blocks', i, n, hi)
  {
    forall m | n + 1 <= m < hi ensures Addr(inode', blocks', i, m) == Addr(inode, blocks, i, m) {
      assert Kept(inode, blocks, inode', blocks', i, m);
    }
    GapsKept(inode, blocks, inode', blocks', i, n + 1, hi);
    assert Gaps(inode, blocks, i, n + 1, n + 1) == 0;
  }

  lemma {:induction false} GapsMore(inode: seq<Dinode>, blocks: seq<Block>, i: nat, n: nat, mid: nat, hi: nat)
    requires i < |inode| && mid <= hi <= MAXFILE
    ensures Gaps(inode, blocks, i, n, mid) <= Gaps(inode, blocks, i, n, hi)
    decreases mid - n
  {
    if n < mid { GapsMore(inode, blocks, i, n + 1, mid, hi); }
  }

  // ---- bytes ----

  function ByteAt(inode: seq<Dinode>, blocks: seq<Block>, i: nat, x: nat): (r: byte)
    requires i < |inode| && x < MAXFILE * BSIZE
  {
    var a := Addr(inode, blocks, i, x / BSIZE);
    if 0 < a < |blocks| then blocks[a][x % BSIZE] else 0
  }

  /** The contents of a file as the byte sequence it stands for. */
  ghost function Contents(inode: seq<Dinode>, blocks: seq<Block>, i: nat): (s: seq<byte>)
    requires i < |inode| && inode[i].size <= MAXFILE * BSIZE
    ensures |s| == inode[i].size
  {
    Bytes(inode, blocks, i, inode[i].size)
  }

  ghost function Bytes(inode: seq<Dinode>, blocks: seq<Block>, i: nat, n: nat): (s: seq<byte>)
    requires i < |inode| && n <= MAXFILE * BSIZE
    ensures |s| == n
  {
    if n == 0 then [] else Bytes(inode, blocks, i, n - 1) + [ByteAt(inode, blocks, i, n - 1)]
  }

  lemma {:induction false} BytesAre(inode: seq<Dinode>, blocks: seq<Block>, i: nat, n: nat)
    requires i < |inode| && n <= MAXFILE * BSIZE
    ensures forall x | 0 <= x < n :: Bytes(inode, blocks, i, n)[x] == ByteAt(inode, blocks, i, x)
  {
    if n > 0 { BytesAre(inode, blocks, i, n - 1); }
  }

  /** `data` put over s from `off` on. */
  function Splice(s: seq<byte>, off: nat, data: seq<byte>): (r: seq<byte>)
    requires off <= |s|
  {
    s[..off] + data + (if off + |data| < |s| then s[off + |data|..] else [])
  }
}
