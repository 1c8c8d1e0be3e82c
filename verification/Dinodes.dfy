/** fs.h: inodes as they lie in the inode blocks, IPB to a block, with 16-bit and 32-bit fields in
    two's complement and padding behind them. */
module Dinodes {
  import opened Basics
  import opened Words
  import opened FsSpec

  const SLOT := 32              // words per inode
  const FIELDS := 17            // words before the padding

  function Half(x: int): (h: nat)
    ensures h < 0x1_0000
  {
    x % 0x1_0000
  }

  /** A short from its bits, ... */
  function Short(h: nat): (x: int)
  {
    if h < 0x8000 then h else h - 0x1_0000
  }

  function AsWord(x: int): (w: word)
  {
    x % TWO32
  }

  /** ... and an int. */
  function Int(w: word): (x: int)
  {
    if w < 0x8000_0000 then w else w - TWO32
  }

  function Pair(lo: int, hi: int): (w: word)
  {
    Half(lo) + 0x1_0000 * Half(hi)
  }

  ghost predicate IsShort(x: int) { -0x8000 <= x < 0x8000 }

  /** The fields have values that their C types can hold. */
  ghost predicate Storable(d: Dinode)
  {
    && IsShort(d.kind) && IsShort(d.major) && IsShort(d.minor) && IsShort(d.nlink)
    && d.size < TWO32 && -0x8000_0000 <= d.mode < 0x8000_0000
    && forall j | 0 <= j <= NDIRECT :: d.addrs[j] < TWO32
  }

  /** The m-th word of a stored inode. */
  function WordOf(d: Dinode, m: nat): (w: word)
    requires m < FIELDS
  {
    if m == 0 then Pair(d.kind, d.major)
    else if m == 1 then Pair(d.minor, d.nlink)
    else if m == 2 then d.size % TWO32
    else if m < 16 then d.addrs[m - 3] % TWO32
    else AsWord(d.mode)
  }

  /** iupdate's stores into slot k of an inode block, field by field. */
  function PutFields(b: Block, k: nat, d: Dinode, m: nat): (r: Block)
    requires k < IPB && m <= FIELDS
  {
    if m == 0 then b else PutWord(PutFields(b, k, d, m - 1), SLOT * k + m - 1, WordOf(d, m - 1))
  }

  function PutDinode(b: Block, k: nat, d: Dinode): (r: Block)
    requires k < IPB
  {
    PutFields(b, k, d, FIELDS)
  }

  /** The m-th word of slot k. */
  function Field(b: Block, k: nat, m: nat): (w: word)
    requires k < IPB && m < SLOT
  {
    Word(b, SLOT * k + m)
  }

  function Low(w: word): (x: int) { Short(w % 0x1_0000) }

  function High(w: word): (x: int) { Short(w / 0x1_0000) }

  function Addrs(b: Block, k: nat): (r: seq<nat>)
    requires k < IPB
    ensures |r| == NDIRECT + 1 && forall j | 0 <= j <= NDIRECT :: r[j] == Field(b, k, 3 + j)
  {
    seq(NDIRECT + 1, j requires 0 <= j <= NDIRECT => Field(b, k, 3 + j))
  }

  /** ilock's loads from slot k. */
  function GetDinode(b: Block, k: nat): (d: Dinode)
    requires k < IPB
  {
    var w0, w1 := Field(b, k, 0), Field(b, k, 1);
    Inode(Low(w0), High(w0), Low(w1), High(w1), Field(b, k, 2), Addrs(b, k), Int(Field(b, k, 16)))
  }

  lemma {:induction false} PutFieldsWord(b: Block, k: nat, d: Dinode, m: nat, j: nat)
    requires k < IPB && m <= FIELDS && j < WORDS
    ensures Word(PutFields(b, k, d, m), j) == if SLOT * k <= j < SLOT * k + m then WordOf(d,
                 j - SLOT * k) else Word(b, j)
    decreases m
  {
    if m > 0 {
      PutFieldsWord(b, k, d, m - 1, j);
      PutWordGet(PutFields(b, k, d, m - 1), SLOT * k + m - 1, WordOf(d, m - 1), j);
    }
  }

  lemma PutField(b: Block, k: nat, d: Dinode, l: nat, m: nat)
    requires k < IPB && l < IPB && m < SLOT
    ensures Field(PutDinode(b, k, d), l, m) == if l == k && m < FIELDS then WordOf(d, m) else Field(b, l, m)
  {
    hide Word, PutFields, WordOf;
    PutFieldsWord(b, k, d, FIELDS, SLOT * l + m);
  }

  lemma HalfShort(x: int)
    requires IsShort(x)
    ensures Short(Half(x)) == x
  {
  }

  lemma Parts(lo: nat, hi: nat)
    requires lo < 0x1_0000
    ensures (lo + 0x1_0000 * hi) % 0x1_0000 == lo && (lo + 0x1_0000 * hi) / 0x1_0000 == hi
  {
  }

  lemma PairParts(lo: int, hi: int)
    requires IsShort(lo) && IsShort(hi)
    ensures Low(Pair(lo, hi)) == lo && High(Pair(lo, hi)) == hi
  {
    hide Half, Short, IsShort;
    HalfShort(lo);
    HalfShort(hi);
    Parts(Half(lo), Half(hi));
  }

  /** What iupdate stores is what ilock loads, mode included. */
  lemma RoundTrip(b: Block, k: nat, d: Dinode)
    requires k < IPB && Storable(d)
    ensures GetDinode(PutDinode(b, k, d), k) == d
  {
    hide Field, PutDinode, Pair, Low, High, Addrs;
    PairParts(d.kind, d.major);
    PairParts(d.minor, d.nlink);
    var e := PutDinode(b, k, d);
    forall m | 0 <= m < FIELDS ensures Field(e, k, m) == WordOf(d, m) { PutField(b, k, d, k, m); }
    forall j | 0 <= j <= NDIRECT ensures Addrs(e, k)[j] == d.addrs[j] { assert Field(e, k, 3 + j) == WordOf(d, 3 + j); }
    assert Addrs(e, k) == d.addrs;
  }

  /** The other inodes of the block stay as they are. */
  lemma Neighbours(b: Block, k: nat, d: Dinode, l: nat)
    requires k < IPB && l < IPB && l != k
    ensures GetDinode(PutDinode(b, k, d), l) == GetDinode(b, l)
  {
    hide Field, PutDinode, Low, High, Addrs;
    var e := PutDinode(b, k, d);
    forall m | 0 <= m < SLOT ensures Field(e, l, m) == Field(b, l, m) { PutField(b, k, d, l, m); }
    assert Addrs(e, l) == Addrs(b, l);
  }

  /** The inode blocks hold these inodes. */
  ghost predicate Stores(blocks: seq<Block>, dinode: seq<Dinode>)
  {
    |dinode| <= IPB * |blocks| && forall i | 0 <= i < |dinode| :: GetDinode(blocks[i / IPB], i % IPB) == dinode[i]
  }

  /** iupdate on the inode blocks is an update of one element of the list of inodes. */
  lemma UpdateStores(blocks: seq<Block>, dinode: seq<Dinode>, i: nat, d: Dinode)
    requires Stores(blocks, dinode) && i < |dinode| && Storable(d)
    ensures Stores(blocks[i / IPB := PutDinode(blocks[i / IPB], i % IPB, d)], dinode[i := d])
  {
    hide GetDinode, PutDinode;
    var blocks' := blocks[i / IPB := PutDinode(blocks[i / IPB], i % IPB, d)];
    forall j | 0 <= j < |dinode| ensures GetDinode(blocks'[j / IPB], j % IPB) == dinode[i := d][j] {
      assert GetDinode(blocks[j / IPB], j % IPB) == dinode[j];
      if j == i {
        RoundTrip(blocks[i / IPB], i % IPB, d);
      } else if j / IPB == i / IPB {
        Neighbours(blocks[i / IPB], i % IPB, d, j % IPB);
      }
    }
  }
}
