/** umalloc.c: the Kernighan and Ritchie allocator. Addresses count Headers; memory is the
    two header words at each address. `ring` is the free list in address order, beginning
    with `base`. */
module HeapSpec {

  import opened Basics

  const HEADER := 8

  type Words = map<int, int>

  function At(m: Words, a: int): (w: int)
  {
    if a in m then m[a] else 0
  }

  /** Index after k in a ring of n. */
  function Next(k: nat, n: nat): (r: nat)
    requires k < n
    ensures r < n
  {
    if k + 1 == n then 0 else k + 1
  }

  ghost predicate LinkOk(ptr: Words, ring: seq<int>, k: nat)
    requires k < |ring|
  {
    At(ptr, ring[k]) == ring[Next(k, |ring|)]
  }

  /** The free list is circular, in address order, and no two of its blocks touch. */
  ghost predicate Ring(ptr: Words, size: Words, ring: seq<int>, base: int)
  {
    && |ring| > 0 && ring[0] == base && At(size, base) == 0
    && (forall k {:trigger LinkOk(ptr, ring, k)} | 0 <= k < |ring| :: LinkOk(ptr, ring, k))
    && (forall k | 0 < k < |ring| :: At(size, ring[k]) > 0)
    && Spread(size, ring)
  }

  ghost predicate Spread(size: Words, ring: seq<int>)
  {
    forall j, k | 0 <= j < k < |ring| :: ring[j] + At(size, ring[j]) < ring[k]
  }

  /** All units of block b are known to be b's. */
  ghost predicate Covers(size: Words, owner: map<int, int>, b: int)
  {
    forall a | b <= a < b + At(size, b) :: a in owner && owner[a] == b
  }

  ghost predicate UnitOk(size: Words, blocks: set<int>, owner: map<int, int>, a: int)
    requires a in owner
  {
    owner[a] in blocks && owner[a] <= a < owner[a] + At(size, owner[a])
  }

  /** Every unit obtained from sbrk (the keys of `owner`) lies in exactly one block, and the
      blocks have no other units. */
  ghost predicate Tiled(size: Words, blocks: set<int>, base: int, owner: map<int, int>)
  {
    && (forall b {:trigger Covers(size, owner, b)} | b in blocks ::
          b > base && At(size, b) > 0 && Covers(size, owner, b))
    && (forall a {:trigger UnitOk(size, blocks, owner, a)} | a in owner :: UnitOk(size, blocks, owner, a))
  }

  /** The blocks are the free ones, in the ring, and the allocated ones. */
  ghost predicate Parts(blocks: set<int>, ring: seq<int>, live: set<int>, base: int)
  {
    && (forall b | b in blocks :: b in live || b in ring)
    && (forall b | b in live :: b in blocks && b !in ring && b > base)
    && (forall b | b in ring && b != base :: b in blocks)
  }

  lemma LiveAbove(blocks: set<int>, ring: seq<int>, live: set<int>, base: int, b: int)
    requires Parts(blocks, ring, live, base) && b in live
    ensures b > base
  {
  }

  /** Blocks do not overlap. */
  lemma Apart(size: Words, blocks: set<int>, base: int, owner: map<int, int>, x: int, y: int)
    requires Tiled(size, blocks, base, owner) && x in blocks && y in blocks && x < y
    ensures x + At(size, x) <= y
  {
    assert Covers(size, owner, x) && Covers(size, owner, y);
    assert y in owner && owner[y] == y;
  }

  ghost function Join(owner: map<int, int>, y: int, x: int): map<int, int>
  {
    map a | a in owner :: if owner[a] == y then x else owner[a]
  }

  /** Block y, right behind x, becomes part of x. */
  lemma Merge(size: Words, blocks: set<int>, base: int, owner: map<int, int>, x: int, y: int)
    requires Tiled(size, blocks, base, owner) && x in blocks && y in blocks && x + At(size, x) == y
    ensures
      && Tiled(size[x := At(size, x) + At(size, y)], blocks - {y}, base, Join(owner, y, x))
      && Join(owner, y, x).Keys == owner.Keys
  {
    var size' := size[x := At(size, x) + At(size, y)];
    var owner' := Join(owner, y, x);
    assert Covers(size, owner, x) && Covers(size, owner, y);
    forall b | b in blocks - {y} ensures b > base && At(size', b) > 0 && Covers(size', owner', b) {
      assert Covers(size, owner, b);
    }
    forall a | a in owner' ensures UnitOk(size', blocks - {y}, owner', a) {
      assert UnitOk(size, blocks, owner, a);
    }
  }

  ghost function Carve(owner: map<int, int>, y: int, n: nat): map<int, int>
  {
    map a | a in owner :: if y <= a < y + n then y else owner[a]
  }

  lemma CarveOther(size: Words, size': Words, owner: map<int, int>, b: int, y: int, n: nat)
    requires Covers(size, owner, b) && At(size', b) <= At(size, b) && (b + At(size', b) <= y || y + n <= b)
    ensures Covers(size', Carve(owner, y, n), b)
  {
  }

  /** The last n units of x become a block of their own. */
  lemma Split(size: Words, blocks: set<int>, base: int, owner: map<int, int>, x: int, n: nat, y: int)
    requires Tiled(size, blocks, base, owner) && x in blocks && 0 < n < At(size, x)
    requires y == x + At(size, x) - n
    ensures y !in blocks && Carve(owner, y, n).Keys == owner.Keys
    ensures Tiled(size[x := At(size, x) - n][y := n], blocks + {y}, base, Carve(owner, y, n))
  {
    var size' := size[x := At(size, x) - n][y := n];
    var owner' := Carve(owner, y, n);
    assert Covers(size, owner, x);
    assert y !in blocks by {
      if y in blocks { Apart(size, blocks, base, owner, x, y); }
    }
    assert Covers(size', owner', y);
    forall b | b in blocks ensures b > base && At(size', b) > 0 && Covers(size', owner', b) {
      assert Covers(size, owner, b);
      if b < x { Apart(size, blocks, base, owner, b, x); }
      if x < b { Apart(size, blocks, base, owner, x, b); }
      CarveOther(size, size', owner, b, y, n);
    }
    forall a | a in owner' ensures UnitOk(size', blocks + {y}, owner', a) {
      assert UnitOk(size, blocks, owner, a);
    }
  }

  ghost function Span(h: int, n: nat): (s: set<int>)
    ensures forall a :: a in s <==> h <= a < h + n
  {
    if n == 0 then {} else Span(h, n - 1) + {h + n - 1}
  }

  ghost function Extend(owner: map<int, int>, h: int, n: nat): (r: map<int, int>)
    ensures r.Keys == owner.Keys + Span(h, n)
  {
    owner + map a | a in Span(h, n) :: h
  }

  /** New units, none of them known before, as one block. */
  lemma Grow(size: Words, blocks: set<int>, base: int, owner: map<int, int>, h: int, n: nat)
    requires Tiled(size, blocks, base, owner) && h > base && n > 0
    requires forall a | h <= a < h + n :: a !in owner
    ensures
      && h !in blocks
      && Tiled(size[h := n], blocks + {h}, base, Extend(owner, h, n))
  {
    var size' := size[h := n];
    var owner' := Extend(owner, h, n);
    forall b | b in blocks ensures b in owner {
      assert Covers(size, owner, b);
    }
    forall b | b in blocks + {h} ensures b > base && At(size', b) > 0 && Covers(size', owner', b) {
      if b != h { assert Covers(size, owner, b); }
    }
    forall a | a in owner' ensures UnitOk(size', blocks + {h}, owner', a) {
      if a in owner { assert UnitOk(size, blocks, owner, a); }
    }
  }

  /** malloc's request in units, with uint arithmetic: a header and room for nbytes. */
  function Units(nbytes: nat): (n: nat)
    requires nbytes < TWO32
  {
    (nbytes + HEADER - 1) % TWO32 / HEADER + 1
  }

  /** The block holds the bytes asked for exactly when the sum does not wrap around; up to
      2^31 - 16 bytes the block's size in bytes is also a nonnegative int for sbrk. */
  lemma UnitsSuffice(nbytes: nat)
    requires nbytes < TWO32
    ensures (Units(nbytes) - 1) * HEADER >= nbytes <==> nbytes <= TWO32 - HEADER
    ensures nbytes <= TWO32 - HEADER ==> (Units(nbytes) - 1) * HEADER < nbytes + HEADER
    ensures Units(nbytes) * HEADER < TWO32 / 2 <==> nbytes <= TWO32 / 2 - 16 || nbytes > TWO32 - HEADER
  {
  }

  // ---- the free list as a sequence ----

  /** The ring with `mid` in place of the members after j and before m. */
  function Cut(ring: seq<int>, j: nat, mid: seq<int>, m: nat): (r: seq<int>)
    requires j < |ring| && j < m <= |ring|
  {
    ring[..j + 1] + mid + ring[m..]
  }

  ghost predicate SamePtr(ptr: Words, ptr': Words, ring: seq<int>, j: nat)
  {
    forall k | 0 <= k < |ring| && k != j :: At(ptr', ring[k]) == At(ptr, ring[k])
  }

  function First(ring: seq<int>, m: nat): (a: int)
    requires |ring| > 0 && m <= |ring|
  {
    if m < |ring| then ring[m] else ring[0]
  }

  /** Making ring[j] point past what follows it takes that out. */
  lemma LinksSkip(ptr: Words, ptr': Words, ring: seq<int>, j: nat, m: nat)
    requires j < |ring| && j < m <= |ring|
    requires forall k {:trigger LinkOk(ptr, ring, k)} | 0 <= k < |ring| :: LinkOk(ptr, ring, k)
    requires SamePtr(ptr, ptr', ring, j) && At(ptr', ring[j]) == First(ring, m)
    ensures forall k {:trigger LinkOk(ptr', Cut(ring, j, [], m), k)} | 0 <= k < |Cut(ring, j, [], m)| ::
      LinkOk(ptr', Cut(ring, j, [], m), k)
  {
    var r := Cut(ring, j, [], m);
    forall k | 0 <= k < |r| ensures LinkOk(ptr', r, k) {
      var i := if k <= j then k else k + m - j - 1;
      assert r[k] == ring[i];
      if k != j { assert LinkOk(ptr, ring, i); }
    }
  }

  lemma LinksInsert(ptr: Words, ptr': Words, ring: seq<int>, j: nat, x: int, m: nat)
    requires j < |ring| && j < m <= |ring|
    requires forall k {:trigger LinkOk(ptr, ring, k)} | 0 <= k < |ring| :: LinkOk(ptr, ring, k)
    requires SamePtr(ptr, ptr', ring, j) && At(ptr', ring[j]) == x && At(ptr', x) == First(ring, m)
    ensures forall k {:trigger LinkOk(ptr', Cut(ring, j, [x], m), k)} | 0 <= k < |Cut(ring, j, [x], m)| ::
      LinkOk(ptr', Cut(ring, j, [x], m), k)
  {
    var r := Cut(ring, j, [x], m);
    forall k | 0 <= k < |r| ensures LinkOk(ptr', r, k) {
      if k == j + 1 {
        assert r[k] == x;
      } else {
        var i := if k <= j then k else k + m - j - 2;
        assert r[k] == ring[i];
        if k != j { assert LinkOk(ptr, ring, i); }
      }
    }
  }

  lemma SpreadSkip(size: Words, size': Words, ring: seq<int>, j: nat, m: nat)
    requires j < |ring| && j < m <= |ring| && Spread(size, ring)
    requires forall k | 0 <= k < j || m <= k < |ring| :: At(size', ring[k]) == At(size, ring[k])
    requires m < |ring| ==> ring[j] + At(size', ring[j]) < ring[m] && At(size', ring[m]) >= 0
    ensures Spread(size', Cut(ring, j, [], m))
  {
    var r := Cut(ring, j, [], m);
    forall k, l | 0 <= k < l < |r| ensures r[k] + At(size', r[k]) < r[l] {
      var i := if l <= j then l else l + m - j - 1;
      assert r[l] == ring[i];
      assert m < i < |ring| ==> ring[m] + At(size, ring[m]) < ring[i];
      assert r[k] == ring[if k <= j then k else k + m - j - 1];
    }
  }

  lemma SpreadInsert(size: Words, size': Words, ring: seq<int>, j: nat, x: int, m: nat)
    requires j < |ring| && j < m <= |ring| && Spread(size, ring) && At(size', x) >= 0
    requires forall k | 0 <= k <= j || m <= k < |ring| :: At(size', ring[k]) == At(size, ring[k]) >= 0
    requires ring[j] + At(size', ring[j]) < x && (m < |ring| ==> x + At(size', x) < ring[m])
    ensures Spread(size', Cut(ring, j, [x], m))
  {
    var r := Cut(ring, j, [x], m);
    forall k, l | 0 <= k < l < |r| ensures r[k] + At(size', r[k]) < r[l] {
      assert k < j ==> ring[k] + At(size, ring[k]) < ring[j];
      assert r[k] == if k <= j then ring[k] else if k == j + 1 then x else ring[k + m - j - 2];
      assert r[l] == if l <= j then ring[l] else if l == j + 1 then x else ring[l + m - j - 2];
      assert l > j + 2 ==> ring[m] + At(size, ring[m]) < ring[l + m - j - 2];
    }
  }

  /** ring[j] takes over, or drops, what stood between it and ring[m]. */
  lemma RingSkip(ptr: Words, ptr': Words, size: Words, size': Words, ring: seq<int>, base: int, j: nat, m: nat)
    requires Ring(ptr, size, ring, base) && j < |ring| && j < m <= |ring|
    requires SamePtr(ptr, ptr', ring, j) && At(ptr', ring[j]) == First(ring, m)
    requires forall k | 0 <= k < j || m <= k < |ring| :: At(size', ring[k]) == At(size, ring[k])
    requires if j == 0 then At(size', base) == 0 else At(size', ring[j]) > 0
    requires m < |ring| ==> ring[j] + At(size', ring[j]) < ring[m]
    ensures Ring(ptr', size', Cut(ring, j, [], m), base)
  {
    LinksSkip(ptr, ptr', ring, j, m);
    SpreadSkip(size, size', ring, j, m);
  }

  /** x stands between ring[j] and ring[m]. */
  lemma RingInsert(ptr: Words, ptr': Words, size: Words, size': Words, ring: seq<int>, base: int, j: nat, x: int,
                   m: nat)
    requires Ring(ptr, size, ring, base) && j < |ring| && j < m <= |ring|
    requires SamePtr(ptr, ptr', ring, j) && At(ptr', ring[j]) == x && At(ptr', x) == First(ring, m)
    requires forall k | 0 <= k <= j || m <= k < |ring| :: At(size', ring[k]) == At(size, ring[k])
    requires At(size', x) > 0
    requires ring[j] + At(size', ring[j]) < x && (m < |ring| ==> x + At(size', x) < ring[m])
    ensures Ring(ptr', size', Cut(ring, j, [x], m), base)
  {
    LinksInsert(ptr, ptr', ring, j, x, m);
    SpreadInsert(size, size', ring, j, x, m);
  }

  /** x, between ring[j] and ring[m], is linked forward and touches nothing behind it. */
  ghost predicate Pending(ptr: Words, size: Words, ptr': Words, size': Words, ring: seq<int>, base: int, j: nat,
                          x: int, m: nat)
  {
    && Ring(ptr, size, ring, base) && j < |ring| && j < m <= j + 2 && m <= |ring|
    && (forall k | 0 <= k < |ring| ::
          ring[k] != x && At(ptr', ring[k]) == At(ptr, ring[k]) && At(size', ring[k]) == At(size, ring[k]))
    && At(ptr', x) == First(ring, m) && At(size', x) > 0
    && ring[j] < x && ring[j] + At(size', ring[j]) <= x
    && (m < |ring| ==> x + At(size', x) < ring[m])
  }

  lemma RingRises(ptr: Words, size: Words, ring: seq<int>, base: int)
    requires Ring(ptr, size, ring, base)
    ensures forall k, l | 0 <= k < l < |ring| :: ring[k] < ring[l]
  {
  }

  lemma PendingJoins(ptr: Words, size: Words, ptr': Words, size': Words, ring: seq<int>, base: int, j: nat, x: int,
                     m: nat, ptr2: Words, size2: Words)
    requires Pending(ptr, size, ptr', size', ring, base, j, x, m)
    requires ring[j] + At(size', ring[j]) == x
    requires ptr2 == ptr'[ring[j] := At(ptr', x)]
    requires size2 == size'[ring[j] := At(size', ring[j]) + At(size', x)]
    ensures Ring(ptr2, size2, Cut(ring, j, [], m), base) && Cut(ring, j, [], m)[j] == ring[j]
  {
    RingRises(ptr, size, ring, base);
    var p := ring[j];
    assert At(ptr2, p) == First(ring, m) && At(size2, p) > 0 && p + At(size2, p) == x + At(size', x) && j != 0;
    assert forall k | 0 <= k < |ring| && k != j ::
      At(ptr2, ring[k]) == At(ptr, ring[k]) && At(size2, ring[k]) == At(size, ring[k]);
    RingSkip(ptr, ptr2, size, size2, ring, base, j, m);
  }

  lemma PendingStands(ptr: Words, size: Words, ptr': Words, size': Words, ring: seq<int>, base: int, j: nat, x: int,
                      m: nat, ptr2: Words)
    requires Pending(ptr, size, ptr', size', ring, base, j, x, m)
    requires ring[j] + At(size', ring[j]) != x
    requires ptr2 == ptr'[ring[j] := x]
    ensures Ring(ptr2, size', Cut(ring, j, [x], m), base)
    ensures Cut(ring, j, [x], m)[j] == ring[j] && Cut(ring, j, [x], m)[j + 1] == x
  {
    RingRises(ptr, size, ring, base);
    RingInsert(ptr, ptr2, size, size', ring, base, j, x, m);
  }

  ghost function Dropped(ring: seq<int>, j: nat, m: nat): (s: set<int>)
    requires j < m <= j + 2 && m <= |ring|
  {
    if m == j + 1 then {} else {ring[j + 1]}
  }

  lemma CutMembers(ring: seq<int>, j: nat, mid: seq<int>, m: nat, b: int)
    requires j < m <= j + 2 && m <= |ring|
    requires m == j + 2 ==> forall k | 0 <= k < |ring| && ring[k] == ring[j + 1] :: k == j + 1
    ensures b in Cut(ring, j, mid, m) <==> (b in ring && b !in Dropped(ring, j, m)) || b in mid
  {
    var r := Cut(ring, j, mid, m);
    if b in r {
      var k :| 0 <= k < |r| && r[k] == b;
      if k <= j {
        assert ring[k] == b;
      } else if k <= j + |mid| {
        assert b == mid[k - j - 1];
      } else {
        assert b == ring[k + m - j - 1 - |mid|];
      }
    }
    if b in mid {
      var k :| 0 <= k < |mid| && mid[k] == b;
      assert r[j + 1 + k] == b;
    }
    if b in ring && b !in Dropped(ring, j, m) {
      var k :| 0 <= k < |ring| && ring[k] == b;
      assert r[if k <= j then k else k - m + j + 1 + |mid|] == b;
    }
  }

  /** Freeing x keeps the partition, whether x becomes a ring member or part of one. */
  lemma PartsFreed(ring: seq<int>, blocks: set<int>, live: set<int>, base: int, j: nat, mid: seq<int>, m: nat, x: int)
    requires j < m <= j + 2 && m <= |ring| && ring[0] == base
    requires forall k, l | 0 <= k < l < |ring| :: ring[k] < ring[l]
    requires Parts(blocks, ring, live, base) && x in live && (mid == [] || mid == [x])
    ensures Parts(if mid == [] then blocks - Dropped(ring, j, m) - {x} else blocks - Dropped(ring, j, m),
                  Cut(ring, j, mid, m), live - {x}, base)
  {
    forall b ensures b in Cut(ring, j, mid, m) <==> (b in ring && b !in Dropped(ring, j, m)) || b in mid {
      CutMembers(ring, j, mid, m, b);
    }
  }

  ghost predicate Sound(ptr: Words, size: Words, ring: seq<int>, live: set<int>, blocks: set<int>, base: int,
                        owner: map<int, int>)
  {
    Ring(ptr, size, ring, base) && Tiled(size, blocks, base, owner) && Parts(blocks, ring, live, base)
  }

  /** The block in the ring that x touches, and x itself. */
  lemma Touching(ptr0: Words, size0: Words, blocks0: set<int>, ptr: Words, size: Words, blocks: set<int>,
                 owner: map<int, int>, ring: seq<int>, live: set<int>, base: int, j: nat, x: int, m: nat)
    requires Pending(ptr0, size0, ptr, size, ring, base, j, x, m) && ring[j] + At(size, ring[j]) == x && x in live
    requires Tiled(size, blocks, base, owner) && blocks == blocks0 - Dropped(ring, j, m)
    requires Parts(blocks0, ring, live, base)
    ensures j < |ring| && j < m <= j + 2 && m <= |ring| && ring[0] == base
    ensures forall k, l | 0 <= k < l < |ring| :: ring[k] < ring[l]
    ensures x in blocks && ring[j] in blocks && ring[j] !in live && ring[j] < x && At(size, ring[j]) >= 0
    ensures x in owner && owner[x] == x
  {
    RingRises(ptr0, size0, ring, base);
    assert j != 0;
    assert x in blocks && Covers(size, owner, x);
  }

  /** x is now part of ring[j]. */
  lemma Absorbed(ptr0: Words, size0: Words, blocks0: set<int>, ptr: Words, size: Words, blocks: set<int>,
                 owner: map<int, int>,
                 ring: seq<int>, live: set<int>, base: int, j: nat, x: int, m: nat, ptr2: Words, size2: Words)
    requires Pending(ptr0, size0, ptr, size, ring, base, j, x, m) && ring[j] + At(size, ring[j]) == x && x in live
    requires Tiled(size, blocks, base, owner) && blocks == blocks0 - Dropped(ring, j, m)
    requires Parts(blocks0, ring, live, base)
    requires ptr2 == ptr[ring[j] := At(ptr, x)]
    requires size2 == size[ring[j] := At(size, ring[j]) + At(size, x)]
    ensures Sound(ptr2, size2, Cut(ring, j, [], m), live - {x}, blocks - {x}, base, Join(owner, x, ring[j]))
    ensures Join(owner, x, ring[j]).Keys == owner.Keys && x in owner && owner[x] == x
    ensures Cut(ring, j, [], m)[j] == ring[j] && ring[j] != x && At(size, ring[j]) >= 0
    ensures forall b | b in live - {x} :: At(size2, b) == At(size, b)
  {
    hide Pending, Ring, Tiled, Parts, Cut;
    Touching(ptr0, size0, blocks0, ptr, size, blocks, owner, ring, live, base, j, x, m);
    Merge(size, blocks, base, owner, ring[j], x);
    PartsFreed(ring, blocks0, live, base, j, [], m, x);
    PendingJoins(ptr0, size0, ptr, size, ring, base, j, x, m, ptr2, size2);
  }

  /** x is now between ring[j] and ring[m]. */
  lemma Placed(ptr0: Words, size0: Words, blocks0: set<int>, ptr: Words, size: Words, blocks: set<int>,
               owner: map<int, int>,
               ring: seq<int>, live: set<int>, base: int, j: nat, x: int, m: nat, ptr2: Words)
    requires Pending(ptr0, size0, ptr, size, ring, base, j, x, m) && ring[j] + At(size, ring[j]) != x && x in live
    requires Tiled(size, blocks, base, owner) && blocks == blocks0 - Dropped(ring, j, m)
    requires Parts(blocks0, ring, live, base)
    requires ptr2 == ptr[ring[j] := x]
    ensures Sound(ptr2, size, Cut(ring, j, [x], m), live - {x}, blocks, base, owner)
    ensures x in owner && owner[x] == x
    ensures Cut(ring, j, [x], m)[j] == ring[j] && Cut(ring, j, [x], m)[j + 1] == x
  {
    RingRises(ptr0, size0, ring, base);
    assert x in blocks && Covers(size, owner, x);
    PartsFreed(ring, blocks0, live, base, j, [x], m, x);
    PendingStands(ptr0, size0, ptr, size, ring, base, j, x, m, ptr2);
  }

  lemma PartsTaken(ring: seq<int>, blocks: set<int>, live: set<int>, base: int, c: nat)
    requires c + 1 < |ring| && ring[0] == base && Parts(blocks, ring, live, base)
    requires forall k, l | 0 <= k < l < |ring| :: ring[k] < ring[l]
    ensures Parts(blocks, Cut(ring, c, [], c + 2), live + {ring[c + 1]}, base) && ring[c + 1] !in live
  {
    forall b ensures b in Cut(ring, c, [], c + 2) <==> b in ring && b != ring[c + 1] {
      CutMembers(ring, c, [], c + 2, b);
    }
  }

  /** A block with units is not the empty one at the start of the ring. */
  lemma NotBase(ptr: Words, size: Words, ring: seq<int>, base: int, c: nat, n: nat)
    requires Ring(ptr, size, ring, base) && c < |ring| && At(size, ring[Next(c, |ring|)]) >= n > 0
    ensures c + 1 < |ring| && ring[c] >= base
  {
    RingRises(ptr, size, ring, base);
  }

  /** ring[c + 1] leaves the ring and is allocated whole. */
  lemma Taken(ptr: Words, size: Words, ring: seq<int>, live: set<int>, blocks: set<int>, base: int, owner: map<int,
              int>, c: nat, ptr2: Words)
    requires Sound(ptr, size, ring, live, blocks, base, owner) && c + 1 < |ring|
    requires ptr2 == ptr[ring[c] := At(ptr, ring[c + 1])]
    ensures Sound(ptr2, size, Cut(ring, c, [], c + 2), live + {ring[c + 1]}, blocks, base, owner)
    ensures c < |Cut(ring, c, [], c + 2)| && Cut(ring, c, [], c + 2)[c] == ring[c] && ring[c + 1] !in live
  {
    RingRises(ptr, size, ring, base);
    assert LinkOk(ptr, ring, c + 1);
    RingSkip(ptr, ptr2, size, size, ring, base, c, c + 2);
    PartsTaken(ring, blocks, live, base, c);
  }

  /** The tail y of ring[i], n units, is allocated; the rest stays in the ring. */
  lemma Carved(ptr: Words, size: Words, ring: seq<int>, live: set<int>, blocks: set<int>, base: int, owner: map<int,
               int>, i: nat, n: nat, y: int, size2: Words)
    requires Sound(ptr, size, ring, live, blocks, base, owner) && i < |ring| && 0 < n < At(size, ring[i])
    requires y == ring[i] + At(size, ring[i]) - n && size2 == size[ring[i] := At(size, ring[i]) - n][y := n]
    ensures Sound(ptr, size2, ring, live + {y}, blocks + {y}, base, Carve(owner, y, n))
    ensures Carve(owner, y, n).Keys == owner.Keys && y !in live
    ensures forall b | b in live :: At(size2, b) == At(size, b)
  {
    RingRises(ptr, size, ring, base);
    assert i != 0;
    Split(size, blocks, base, owner, ring[i], n, y);
    assert y > base && forall k | 0 <= k < |ring| :: ring[k] != y;
    assert forall k | 0 <= k < |ring| :: At(size2, ring[k]) <= At(size, ring[k]);
  }

  /** Index of the last ring member below bp. */
  ghost function Before(ring: seq<int>, bp: int, n: nat): (j: nat)
    requires 0 < n <= |ring| && ring[0] < bp
    ensures j < n && ring[j] < bp && forall k | j < k < n :: ring[k] >= bp
  {
    if ring[n - 1] < bp then n - 1 else Before(ring, bp, n - 1)
  }

  // ---- conservation ----

  ghost predicate InBlock(size: Words, b: int, a: int)
  {
    b <= a < b + At(size, b)
  }

  /** Every unit obtained is in exactly one block, free or allocated, and no block reaches
      beyond the units obtained. */
  lemma UnitsConserved(ptr: Words, size: Words, ring: seq<int>, live: set<int>, blocks: set<int>, base: int,
                       owner: map<int, int>, a: int)
    requires Ring(ptr, size, ring, base) && Tiled(size, blocks, base, owner) && Parts(blocks, ring, live, base)
    ensures a in owner <==> exists b :: (b in live || b in ring) && InBlock(size, b, a)
    ensures forall b, c | (b in live || b in ring) && (c in live || c in ring) && InBlock(size, b, a) && InBlock(size,
                           c, a) ::
      b == c
  {
    forall b | (b in live || b in ring) && InBlock(size, b, a) ensures a in owner && owner[a] == b {
      assert b in blocks;
      assert Covers(size, owner, b);
    }
    if a in owner {
      assert UnitOk(size, blocks, owner, a);
      assert InBlock(size, owner[a], a);
    }
  }
}

module Heap {
  import opened Basics
  import opened HeapSpec

  /** Units morecore asks sbrk for. */
  function Ask(n: nat): (r: nat)
    ensures r >= n && r > 0
  {
    if n < 4096 then 4096 else n
  }

  /** Positions f+1 up to c around the ring. */
  ghost predicate Passed(f: nat, c: nat, k: nat)
  {
    if f <= c then f < k <= c else f < k || k <= c
  }

  ghost predicate TooSmall(size: Words, ring: seq<int>, f: nat, c: nat, n: nat)
  {
    forall k | 0 <= k < |ring| && Passed(f, c, k) :: At(size, ring[k]) < n
  }

  /** malloc's walk from the block after freep, until one has n units or freep is reached. */
  method Walk(ptr: Words, size: Words, freep: int, n: nat, ghost ring: seq<int>, ghost base: int)
    returns (prevp: int, p: int, ghost c: nat)
    requires Ring(ptr, size, ring, base) && freep in ring
    ensures c < |ring| && prevp == ring[c] && p == ring[Next(c, |ring|)]
    ensures At(size, p) < n ==> p == freep && forall k | 0 <= k < |ring| :: At(size, ring[k]) < n
  {
    hide Spread;
    RingRises(ptr, size, ring, base);
    ghost var f: nat :| f < |ring| && ring[f] == freep;
    c := f;
    prevp := freep;
    assert LinkOk(ptr, ring, c);
    p := At(ptr, prevp);
    while At(size, p) < n && p != freep
      invariant c < |ring| && prevp == ring[c] && p == ring[Next(c, |ring|)]
      invariant TooSmall(size, ring, f, c, n)
      decreases if c < f then f - c else f + |ring| - c
    {
      c := Next(c, |ring|);
      assert LinkOk(ptr, ring, c);
      prevp := p;
      p := At(ptr, p);
    }
    assert p == freep ==> Next(c, |ring|) == f;
  }

  class Heap {
    const base: int             // &base, below everything sbrk returns
    var ptr: Words
    var size: Words
    var freep: int              // 0 is the null pointer
    ghost var ring: seq<int>
    ghost var live: set<int>    // headers of the allocated blocks
    ghost var blocks: set<int>
    ghost var owner: map<int, int>

    ghost predicate Valid()
      reads this
    {
      && base > 0
      && Tiled(size, blocks, base, owner)
      && (if freep == 0 then live == {} && blocks == {} && owner == map[]
          else freep in ring && Ring(ptr, size, ring, base) && Parts(blocks, ring, live, base))
    }

    constructor (base: int)
      requires base > 0
      ensures this.base == base && live == {} && owner == map[] && Valid()
    {
      this.base := base;
      ptr, size, freep := map[], map[], 0;
      ring, live, blocks, owner := [], {}, {}, map[];
    }

    /** free's search: the member of the ring after which bp belongs. */
    method FindPlace(bp: int) returns (p: int, ghost j: nat)
      requires Valid() && freep != 0 && bp in live
      ensures j < |ring| && p == ring[j] < bp && (j + 1 < |ring| ==> bp < ring[j + 1])
    {
      ghost var n := |ring|;
      ghost var t := Before(ring, bp, n);
      j :| 0 <= j < n && ring[j] == freep;
      p := freep;
      while !(bp > p && bp < At(ptr, p))
        invariant 0 <= j < n && p == ring[j]
        decreases if j <= t then t - j else t - j + n
      {
        assert LinkOk(ptr, ring, j);
        if p >= At(ptr, p) && (bp > p || bp < At(ptr, p)) {
          break;
        }
        j := Next(j, n);
        p := At(ptr, p);
      }
      assert LinkOk(ptr, ring, j);
    }

    /** The block about to become free, behind ring[j], takes in the free block it touches. */
    method JoinNext(bp: int, p: int, ghost j: nat) returns (ghost m: nat)
      requires Valid() && freep != 0 && bp in live
      requires j < |ring| && p == ring[j] < bp && (j + 1 < |ring| ==> bp < ring[j + 1])
      modifies this`ptr, this`size, this`blocks, this`owner
      ensures j < m <= |ring| && m <= j + 2
      ensures blocks == old(blocks) - Dropped(ring, j, m)
      ensures forall a | a != bp :: At(ptr, a) == old(At(ptr, a)) && At(size, a) == old(At(size, a))
      ensures At(size, bp) >= old(At(size, bp)) && At(ptr, bp) == First(ring, m)
      ensures m < |ring| ==> bp + At(size, bp) < ring[m]
      ensures owner.Keys == old(owner.Keys) && Tiled(size, blocks, base, owner)
    {
      m := j + 1;
      assert LinkOk(ptr, ring, j) && Covers(size, owner, bp);
      var next := At(ptr, p);
      if j + 1 < |ring| { Apart(size, blocks, base, owner, bp, ring[j + 1]); }
      if bp + At(size, bp) == next {
        m := j + 2;
        assert LinkOk(ptr, ring, j + 1);
        Merge(size, blocks, base, owner, bp, next);
        blocks := blocks - {next};
        owner := Join(owner, next, bp);
        size := size[bp := At(size, bp) + At(size, next)];
        ptr := ptr[bp := At(ptr, next)];
      } else {
        ptr := ptr[bp := next];
      }
    }

    /** Then ring[j] takes it in if they touch, or points to it. */
    method JoinPrev(bp: int, p: int, ghost j: nat, ghost m: nat, ghost ptr0: Words, ghost size0: Words,
                    ghost blocks0: set<int>)
      requires Pending(ptr0, size0, ptr, size, ring, base, j, bp, m) && p == ring[j]
      requires Tiled(size, blocks, base, owner) && bp in live
      requires blocks == blocks0 - Dropped(ring, j, m) && Parts(blocks0, ring, live, base)
      modifies this
      ensures freep == p && freep in ring && live == old(live) - {bp} && owner.Keys == old(owner.Keys)
      ensures forall b | b in live :: At(size, b) == old(At(size, b))
      ensures bp in owner && owner[bp] in ring && At(size, owner[bp]) >= old(At(size, bp))
      ensures Sound(ptr, size, ring, live, blocks, base, owner)
    {
      hide Ring, Tiled, Parts, Sound, Dropped;
      ghost var ring2, blocks2, owner2 := ring, blocks, owner;
      var ptr2, size2 := ptr, size;
      if p + At(size, p) == bp {
        size2 := size[p := At(size, p) + At(size, bp)];
        ptr2 := ptr[p := At(ptr, bp)];
        Absorbed(ptr0, size0, blocks0, ptr, size, blocks, owner, ring, live, base, j, bp, m, ptr2, size2);
        ring2, blocks2, owner2 := Cut(ring, j, [], m), blocks - {bp}, Join(owner, bp, p);
      } else {
        ptr2 := ptr[p := bp];
        Placed(ptr0, size0, blocks0, ptr, size, blocks, owner, ring, live, base, j, bp, m, ptr2);
        ring2 := Cut(ring, j, [bp], m);
      }
      assert p == ring2[j];
      ptr, size, freep := ptr2, size2, p;
      ring, blocks, owner, live := ring2, blocks2, owner2, live - {bp};
    }

    method Free(bp: int)
      requires Valid() && bp in live
      modifies this
      ensures freep != 0
      ensures live == old(live) - {bp} && owner.Keys == old(owner.Keys)
      ensures forall b | b in live :: At(size, b) == old(At(size, b))
      ensures bp in owner && owner[bp] in ring && At(size, owner[bp]) >= old(At(size, bp))
      ensures Valid()
    {
      ghost var j: nat;
      var p: int;
      p, j := FindPlace(bp);
      ghost var m := JoinNext(bp, p, j);
      assert Covers(size, owner, bp);
      if j > 0 { Apart(size, blocks, base, owner, p, bp); }
      JoinPrev(bp, p, j, m, old(ptr), old(size), old(blocks));
    }

    /** Allocates the block p whole, ... */
    method TakeWhole(prevp: int, p: int, ghost c: nat)
      requires base > 0 && Sound(ptr, size, ring, live, blocks, base, owner)
      requires c + 1 < |ring| && prevp == ring[c] && p == ring[c + 1]
      modifies this`ptr, this`ring, this`live
      ensures p !in old(live) && live == old(live) + {p} && c < |ring| && ring[c] == prevp
      ensures Sound(ptr, size, ring, live, blocks, base, owner)
    {
      hide Sound;
      var ptr2 := ptr[prevp := At(ptr, p)];
      Taken(ptr, size, ring, live, blocks, base, owner, c, ptr2);
      ptr, ring, live := ptr2, Cut(ring, c, [], c + 2), live + {p};
    }

    /** ... or its last n units. */
    method TakeTail(p: int, n: nat, ghost i: nat) returns (bp: int)
      requires Sound(ptr, size, ring, live, blocks, base, owner)
      requires i < |ring| && p == ring[i] && 0 < n < At(size, p)
      modifies this`size, this`live, this`blocks, this`owner
      ensures bp !in old(live) && live == old(live) + {bp} && At(size, bp) == n && owner.Keys == old(owner.Keys)
      ensures forall b | b in old(live) :: At(size, b) == old(At(size, b))
      ensures Sound(ptr, size, ring, live, blocks, base, owner)
    {
      hide Sound;
      bp := p + At(size, p) - n;
      var size2 := size[p := At(size, p) - n][bp := n];
      Carved(ptr, size, ring, live, blocks, base, owner, i, n, bp, size2);
      size, blocks, owner, live := size2, blocks + {bp}, Carve(owner, bp, n), live + {bp};
    }

    /** Allocates n units of p, which stands behind prevp in the ring. */
    method Take(prevp: int, p: int, n: nat, ghost c: nat) returns (bp: int)
      requires Valid() && freep != 0 && n > 0
      requires c < |ring| && prevp == ring[c] && p == ring[Next(c, |ring|)] && At(size, p) >= n
      modifies this
      ensures freep == prevp && freep != 0 && owner.Keys == old(owner.Keys)
      ensures bp !in old(live) && live == old(live) + {bp} && At(size, bp) == n
      ensures forall b | b in old(live) :: At(size, b) == old(At(size, b))
      ensures Valid()
    {
      hide Ring, Tiled, Parts;
      NotBase(ptr, size, ring, base, c, n);
      bp := p;
      if At(size, p) == n {
        TakeWhole(prevp, p, c);
      } else {
        bp := TakeTail(p, n, c + 1);
      }
      freep := prevp;
    }

    /** sbrk's result, if any, is memory nobody has been given. */
    ghost predicate Unused(sbrk: Option<int>, n: nat)
      reads this
    {
      sbrk.Some? ==> sbrk.value > base && forall a | sbrk.value <= a < sbrk.value + n :: a !in owner
    }

    method Morecore(n: nat, sbrk: Option<int>) returns (p: int)
      requires Valid() && freep != 0 && Unused(sbrk, Ask(n))
      modifies this
      ensures live == old(live) && forall b | b in live :: At(size, b) == old(At(size, b))
      ensures p == 0 <==> sbrk.None?
      ensures sbrk.None? ==>
        ptr == old(ptr) && size == old(size) && freep == old(freep) && ring == old(ring) && owner == old(owner)
      ensures sbrk.Some? ==> p == freep != 0 && owner.Keys == old(owner.Keys) + Span(sbrk.value, Ask(n))
      ensures sbrk.Some? ==> exists k :: 0 <= k < |ring| && At(size, ring[k]) >= n
      ensures Valid()
    {
      var nu := Ask(n);
      if sbrk.None? {
        return 0;
      }
      var hp := sbrk.value;
      Grow(size, blocks, base, owner, hp, nu);
      assert hp !in ring;
      size := size[hp := nu];
      blocks, owner, live := blocks + {hp}, Extend(owner, hp, nu), live + {hp};
      Free(hp);
      p := freep;
    }

    ghost predicate Fits(n: nat)
      reads this
    {
      freep != 0 && exists k :: 0 <= k < |ring| && At(size, ring[k]) >= n
    }

    /** The first call makes the list of the empty block `base`. */
    method Start()
      requires Valid()
      modifies this
      ensures freep != 0 && live == old(live) && owner == old(owner)
      ensures forall b | b in live :: At(size, b) == old(At(size, b))
      ensures forall n: nat | n > 0 :: Fits(n) == old(Fits(n))
      ensures Valid()
    {
      if freep == 0 {
        ptr, size, freep := ptr[base := base], size[base := 0], base;
        ring := [base];
        assert LinkOk(ptr, ring, 0);
      }
    }

    /** Result r is the address behind the new block's header, or 0; `asked` says whether
        morecore was called, which happens at most once. */
    method Malloc(nbytes: nat, sbrk: Option<int>) returns (r: int, asked: bool)
      requires Valid() && nbytes <= TWO32 / 2 - 16 && Unused(sbrk, Ask(Units(nbytes)))
      modifies this
      ensures asked <==> !old(Fits(Units(nbytes)))
      ensures r == 0 <==> asked && sbrk.None?
      ensures r == 0 ==> live == old(live)
      ensures r != 0 ==> r - 1 !in old(live) && live == old(live) + {r - 1} && At(size, r - 1) == Units(nbytes)
      ensures forall b | b in old(live) :: At(size, b) == old(At(size, b))
      ensures owner.Keys == old(owner.Keys) + (if asked && sbrk.Some? then Span(sbrk.value, Ask(Units(nbytes))) else {})
      ensures Valid()
    {
      hide Ring, Tiled, Parts, Span;
      var n := Units(nbytes);
      asked := false;
      Start();
      while true
        invariant Valid() && freep != 0 && live == old(live)
        invariant forall b | b in live :: At(size, b) == old(At(size, b))
        invariant asked ==> sbrk.Some? && !old(Fits(n)) && Fits(n)
        invariant !asked ==> old(Fits(n)) == Fits(n) && owner == old(owner)
        invariant owner.Keys == old(owner.Keys) + (if asked then Span(sbrk.value, Ask(n)) else {})
        decreases !asked
      {
        ghost var c: nat;
        var prevp, p: int;
        prevp, p, c := Walk(ptr, size, freep, n, ring, base);
        if At(size, p) >= n {
          var bp := Take(prevp, p, n, c);
          LiveAbove(blocks, ring, live, base, bp);
          return bp + 1, asked;
        }
        assert !asked;
        asked := true;
        p := Morecore(n, sbrk);
        if p == 0 {
          return 0, asked;
        }
      }
    }
  }
}
