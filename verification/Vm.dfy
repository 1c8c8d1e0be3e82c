/** vm.c and kalloc.c: two-level page tables over a pool of physical pages. A page is named by
    its page number, and so is the kernel pointer to it. `owner` says what each page is for. */
module VmSpec {
  import opened Basics

  const ENTRIES := 1024         // per directory and per table
  const USER := 512             // directory entries below KERNBASE
  const PTE_W := 2
  const PTE_U := 4

  type Page = p: seq<nat> | |p| == ENTRIES witness seq(ENTRIES, i => 0)

  datatype Owner = Kernel | Free | Held | Dir | Table(dir: int, i: int) | User(dir: int, i: int, k: int)

  function Filled(w: nat): (p: Page)
    ensures forall k | 0 <= k < ENTRIES :: p[k] == w
  {
    seq(ENTRIES, k => w)
  }

  predicate Present(w: nat) { w % 2 == 1 }

  function Frame(w: nat): (p: nat) { w / 4096 }

  function Flags(w: nat): (f: nat)
    ensures f < 4096 && f % 2 == w % 2
  {
    PteParts(w / 4096, w % 4096);
    w % 4096
  }

  lemma PteParts(p: nat, f: nat)
    requires f < 4096
    ensures (p * 4096 + f) / 4096 == p && (p * 4096 + f) % 4096 == f && (p * 4096 + f) % 2 == f % 2
  {
    assert p * 4096 + f == 2 * (2048 * p) + f;
  }

  function Pte(p: nat, perm: nat): (w: nat)
    requires perm < 4096
    ensures Present(w) && Frame(w) == p && Flags(w) == if perm % 2 == 1 then perm else perm + 1
  {
    PteParts(p, if perm % 2 == 1 then perm else perm + 1);
    p * 4096 + if perm % 2 == 1 then perm else perm + 1
  }

  /** The entry for a virtual page, 0 if there is no table for it. */
  function Entry(mem: seq<Page>, d: int, i: int, k: int): (w: nat)
    requires 0 <= d < |mem| && 0 <= i < ENTRIES && 0 <= k < ENTRIES
  {
    if Present(mem[d][i]) && Frame(mem[d][i]) < |mem| then mem[Frame(mem[d][i])][k] else 0
  }

  /** Entry k of page p leads to the page that belongs there. */
  ghost predicate EntryOk(mem: seq<Page>, owner: seq<Owner>, p: int, k: int)
    requires |owner| == |mem| && 0 <= p < |mem| && 0 <= k < ENTRIES
  {
    var w := mem[p][k];
    && (owner[p].Dir? && Present(w) ==> Frame(w) < |mem| && owner[Frame(w)] == Table(p, k))
    && (owner[p].Table? && owner[p].i < USER && Present(w) ==>
          Frame(w) < |mem| && owner[Frame(w)] == User(owner[p].dir, owner[p].i, k))
  }

  ghost predicate Leads(mem: seq<Page>, owner: seq<Owner>, d: int, i: int, t: int)
    requires |owner| == |mem|
  {
    0 <= d < |mem| && 0 <= i < ENTRIES && owner[d].Dir? && Present(mem[d][i]) && Frame(mem[d][i]) == t
  }

  /** Page p is found where its owner says. */
  ghost predicate PageOk(mem: seq<Page>, owner: seq<Owner>, p: int)
    requires |owner| == |mem| && 0 <= p < |mem|
  {
    match owner[p]
    case Table(d, i) => Leads(mem, owner, d, i, p)
    case User(d, i, k) =>
      && 0 <= d < |mem| && 0 <= i < USER && 0 <= k < ENTRIES
      && var t := Frame(mem[d][i]);
      && 0 <= t < |mem| && Leads(mem, owner, d, i, t) && owner[t] == Table(d, i)
      && Present(mem[t][k]) && Frame(mem[t][k]) == p
    case _ => true
  }

  ghost predicate Owned(mem: seq<Page>, owner: seq<Owner>)
  {
    && |owner| == |mem|
    && (forall p, k {:trigger EntryOk(mem, owner, p, k)} | 0 <= p < |mem| && 0 <= k < ENTRIES ::
          EntryOk(mem, owner, p, k))
    && (forall p {:trigger PageOk(mem, owner, p)} | 0 <= p < |mem| :: PageOk(mem, owner, p))
  }

  ghost predicate SameExcept(mem: seq<Page>, mem': seq<Page>, p: int)
  {
    |mem'| == |mem| && forall q | 0 <= q < |mem| && q != p :: mem'[q] == mem[q]
  }

  /** Nobody points to a page that is free or just held. */
  ghost predicate Loose(o: Owner)
  {
    o.Free? || o.Held?
  }

  lemma LoosePage(mem: seq<Page>, mem': seq<Page>, owner: seq<Owner>, p: int, o: Owner, owner': seq<Owner>)
    requires Owned(mem, owner) && 0 <= p < |mem| && Loose(owner[p]) && Loose(o)
    requires SameExcept(mem, mem', p) && owner' == owner[p := o]
    ensures Owned(mem', owner')
  {
    forall q, k | 0 <= q < |mem| && 0 <= k < ENTRIES ensures EntryOk(mem', owner', q, k) {
      assert EntryOk(mem, owner, q, k);
    }
    forall q | 0 <= q < |mem| ensures PageOk(mem', owner', q) {
      assert PageOk(mem, owner, q);
    }
  }

  /** A held page becomes a directory without entries. */
  lemma NewDir(mem: seq<Page>, owner: seq<Owner>, d: int, mem': seq<Page>, owner': seq<Owner>)
    requires Owned(mem, owner) && 0 <= d < |mem| && owner[d] == Held
    requires SameExcept(mem, mem', d) && mem'[d] == Filled(0) && owner' == owner[d := Dir]
    ensures Owned(mem', owner')
  {
    forall q, k | 0 <= q < |mem| && 0 <= k < ENTRIES ensures EntryOk(mem', owner', q, k) {
      assert EntryOk(mem, owner, q, k);
    }
    forall q | 0 <= q < |mem| ensures PageOk(mem', owner', q) {
      assert PageOk(mem, owner, q);
    }
  }

  /** A held page becomes directory d's table i, without entries. */
  lemma NewTable(mem: seq<Page>, owner: seq<Owner>, d: int, i: int, t: int, mem': seq<Page>, owner': seq<Owner>)
    requires Owned(mem, owner) && 0 <= d < |mem| && owner[d] == Dir && 0 <= i < ENTRIES && !Present(mem[d][i])
    requires 0 <= t < |mem| && owner[t] == Held
    requires mem' == mem[t := Filled(0)][d := mem[d][i := Pte(t, 7)]] && owner' == owner[t := Table(d, i)]
    ensures Owned(mem', owner')
  {
    forall q, k | 0 <= q < |mem| && 0 <= k < ENTRIES ensures EntryOk(mem', owner', q, k) {
      assert EntryOk(mem, owner, q, k);
    }
    forall q | 0 <= q < |mem| ensures PageOk(mem', owner', q) {
      assert PageOk(mem, owner, q);
    }
  }

  /** A held page is mapped in a user table. */
  lemma NewUser(mem: seq<Page>, owner: seq<Owner>, d: int, i: int, k: int, t: int, w: nat, mem': seq<Page>,
                owner': seq<Owner>)
    requires Owned(mem, owner) && 0 <= i < USER && 0 <= k < ENTRIES && 0 <= t < |mem| && owner[t] == Table(d, i)
    requires !Present(mem[t][k]) && Present(w) && Frame(w) < |mem| && owner[Frame(w)] == Held
    requires mem' == mem[t := mem[t][k := w]] && owner' == owner[Frame(w) := User(d, i, k)]
    ensures Owned(mem', owner')
  {
    assert PageOk(mem, owner, t);
    forall q, l | 0 <= q < |mem| && 0 <= l < ENTRIES ensures EntryOk(mem', owner', q, l) {
      assert EntryOk(mem, owner, q, l);
    }
    forall q | 0 <= q < |mem| ensures PageOk(mem', owner', q) {
      assert PageOk(mem, owner, q);
    }
  }

  /** A mapping in a kernel table owns nothing. */
  lemma NewKernel(mem: seq<Page>, owner: seq<Owner>, d: int, i: int, k: int, t: int, w: nat, mem': seq<Page>)
    requires Owned(mem, owner) && USER <= i < ENTRIES && 0 <= k < ENTRIES && 0 <= t < |mem| && owner[t] == Table(d, i)
    requires mem' == mem[t := mem[t][k := w]]
    ensures Owned(mem', owner)
  {
    assert PageOk(mem, owner, t);
    forall q, l | 0 <= q < |mem| && 0 <= l < ENTRIES ensures EntryOk(mem', owner, q, l) {
      assert EntryOk(mem, owner, q, l);
    }
    forall q | 0 <= q < |mem| ensures PageOk(mem', owner, q) {
      assert PageOk(mem, owner, q);
    }
  }

  /** Clearing a user entry lets go of its page. */
  lemma DropUser(mem: seq<Page>, owner: seq<Owner>, d: int, i: int, k: int, t: int, p: int, o: Owner,
                 mem': seq<Page>, owner': seq<Owner>)
    requires Owned(mem, owner) && 0 <= i < USER && 0 <= k < ENTRIES && 0 <= t < |mem| && owner[t] == Table(d, i)
    requires Present(mem[t][k]) && p == Frame(mem[t][k]) && Loose(o)
    requires |mem'| == |mem| && (forall q | 0 <= q < |mem| && q != p && q != t :: mem'[q] == mem[q])
    requires mem'[t] == mem[t][k := 0]
    requires 0 <= p < |mem| && owner' == owner[p := o]
    ensures Owned(mem', owner') && owner[p] == User(d, i, k)
  {
    assert PageOk(mem, owner, t) && EntryOk(mem, owner, t, k);
    forall q, l | 0 <= q < |mem| && 0 <= l < ENTRIES ensures EntryOk(mem', owner', q, l) {
      assert EntryOk(mem, owner, q, l) && PageOk(mem, owner, q);
    }
    forall q | 0 <= q < |mem| ensures PageOk(mem', owner', q) {
      assert PageOk(mem, owner, q);
    }
  }

  // ---- the free list ----

  ghost predicate LinkOk(mem: seq<Page>, free: seq<int>, k: int)
    requires 0 <= k < |free| && 0 <= free[k] < |mem|
  {
    mem[free[k]][0] == if k + 1 < |free| then free[k + 1] else 0
  }

  /** The list starting at `head` and linked through the first word of each page. */
  ghost predicate List(mem: seq<Page>, head: int, free: seq<int>)
  {
    && head == (if |free| > 0 then free[0] else 0)
    && (forall k {:trigger free[k]} | 0 <= k < |free| :: 0 < free[k] < |mem|)
    && (forall k {:trigger LinkOk(mem, free, k)} | 0 <= k < |free| :: LinkOk(mem, free, k))
    && (forall j, k | 0 <= j < k < |free| :: free[j] != free[k])
  }

  /** The list holds exactly the free pages. */
  ghost predicate Lists(owner: seq<Owner>, free: seq<int>)
  {
    && (forall p | 0 <= p < |owner| && owner[p] == Free :: p in free)
    && (forall p | p in free :: 0 < p < |owner| && owner[p] == Free)
  }

  lemma ListSame(mem: seq<Page>, mem': seq<Page>, head: int, free: seq<int>)
    requires List(mem, head, free) && |mem'| == |mem|
    requires forall k | 0 <= k < |free| :: mem'[free[k]] == mem[free[k]]
    ensures List(mem', head, free)
  {
    forall k | 0 <= k < |free| ensures LinkOk(mem', free, k) {
      assert LinkOk(mem, free, k);
    }
  }

  lemma ListPop(mem: seq<Page>, head: int, free: seq<int>)
    requires List(mem, head, free) && |free| > 0
    ensures List(mem, mem[head][0], free[1..])
  {
    assert LinkOk(mem, free, 0);
    forall k | 0 <= k < |free[1..]| ensures LinkOk(mem, free[1..], k) {
      assert LinkOk(mem, free, k + 1);
    }
  }

  lemma ListPush(mem: seq<Page>, head: int, free: seq<int>, p: int, mem': seq<Page>)
    requires List(mem, head, free) && 0 < p < |mem| && p !in free
    requires SameExcept(mem, mem', p) && mem'[p][0] == head
    ensures List(mem', p, [p] + free)
  {
    var free' := [p] + free;
    forall k | 0 <= k < |free'| ensures 0 < free'[k] < |mem| && LinkOk(mem', free', k) {
      if k > 0 {
        assert free'[k] == free[k - 1] && LinkOk(mem, free, k - 1);
      }
    }
  }

  // ---- address spaces ----

  function Vpn(i: int, k: int): (v: int) { i * ENTRIES + k }

  function Pdx(v: nat): (i: nat)
    ensures i * ENTRIES <= v < (i + 1) * ENTRIES
  {
    v / ENTRIES
  }

  function Ptx(v: nat): (k: nat)
    ensures k < ENTRIES && Vpn(Pdx(v), k) == v
  {
    v - Pdx(v) * ENTRIES
  }

  /** No directory's entries have changed. */
  ghost predicate SameSpaces(mem: seq<Page>, owner: seq<Owner>, mem': seq<Page>)
    requires |owner| == |mem|
  {
    |mem'| == |mem| &&
    forall e, i, k {:trigger Entry(mem', e, i, k)} |
      0 <= e < |mem| && owner[e].Dir? && 0 <= i < ENTRIES && 0 <= k < ENTRIES ::
      Entry(mem', e, i, k) == Entry(mem, e, i, k)
  }

  /** Only entry (i, k) of directory d has changed, to w. */
  ghost predicate Sets(mem: seq<Page>, owner: seq<Owner>, mem': seq<Page>, d: int, i: int, k: int, w: nat)
    requires |owner| == |mem|
  {
    |mem'| == |mem| &&
    forall e, i', k' {:trigger Entry(mem', e, i', k')} |
      0 <= e < |mem| && owner[e].Dir? && 0 <= i' < ENTRIES && 0 <= k' < ENTRIES ::
      Entry(mem', e, i', k') == if e == d && i' == i && k' == k then w else Entry(mem, e, i', k')
  }

  lemma LooseSame(mem: seq<Page>, mem': seq<Page>, owner: seq<Owner>, p: int)
    requires Owned(mem, owner) && 0 <= p < |mem| && Loose(owner[p]) && SameExcept(mem, mem', p)
    ensures SameSpaces(mem, owner, mem')
  {
    forall e, i, k | 0 <= e < |mem| && owner[e].Dir? && 0 <= i < ENTRIES && 0 <= k < ENTRIES
      ensures Entry(mem', e, i, k) == Entry(mem, e, i, k)
    {
      assert EntryOk(mem, owner, e, i);
    }
  }

  lemma TableSame(mem: seq<Page>, owner: seq<Owner>, d: int, i: int, t: int, mem': seq<Page>)
    requires Owned(mem, owner) && 0 <= d < |mem| && owner[d] == Dir && 0 <= i < ENTRIES && !Present(mem[d][i])
    requires 0 <= t < |mem| && Loose(owner[t])
    requires mem' == mem[t := Filled(0)][d := mem[d][i := Pte(t, 7)]]
    ensures SameSpaces(mem, owner, mem')
  {
    forall e, i', k | 0 <= e < |mem| && owner[e].Dir? && 0 <= i' < ENTRIES && 0 <= k < ENTRIES
      ensures Entry(mem', e, i', k) == Entry(mem, e, i', k)
    {
      assert EntryOk(mem, owner, e, i');
    }
  }

  lemma EntrySet(mem: seq<Page>, owner: seq<Owner>, d: int, i: int, k: int, t: int, w: nat, p: int, mem': seq<Page>)
    requires Owned(mem, owner) && 0 <= k < ENTRIES && 0 <= t < |mem| && owner[t] == Table(d, i)
    requires |mem'| == |mem| && mem'[t] == mem[t][k := w]
    requires forall q | 0 <= q < |mem| && q != t && q != p :: mem'[q] == mem[q]
    requires 0 <= p < |mem| && !owner[p].Dir? && (owner[p].Table? ==> p == t)
    ensures Sets(mem, owner, mem', d, i, k, w)
  {
    assert PageOk(mem, owner, t);
    forall e, i', k' | 0 <= e < |mem| && owner[e].Dir? && 0 <= i' < ENTRIES && 0 <= k' < ENTRIES
      ensures Entry(mem', e, i', k') == if e == d && i' == i && k' == k then w else Entry(mem, e, i', k')
    {
      assert EntryOk(mem, owner, e, i');
    }
  }

  // ---- what an operation on directory d may do ----

  ghost predicate Mine(o: Owner, d: int, lo: int, hi: int)
  {
    o.User? && o.dir == d && lo <= Vpn(o.i, o.k) < hi
  }

  /** d has taken free pages, as tables or for virtual pages lo to hi. */
  ghost predicate Gains(owner: seq<Owner>, owner': seq<Owner>, d: int, lo: int, hi: int)
  {
    |owner'| == |owner| &&
    forall p | 0 <= p < |owner| ::
      || owner'[p] == owner[p]
      || (owner[p].Free? && ((owner'[p].Table? && owner'[p].dir == d) || Mine(owner'[p], d, lo, hi)))
  }

  /** Exactly d's pages for lo to hi have been freed. */
  ghost predicate Loses(owner: seq<Owner>, owner': seq<Owner>, d: int, lo: int, hi: int)
  {
    |owner'| == |owner| &&
    forall p | 0 <= p < |owner| :: owner'[p] == if Mine(owner[p], d, lo, hi) then Free else owner[p]
  }

  /** Pages in use that have not been freed have kept their contents. */
  ghost predicate KeepsData(mem: seq<Page>, owner: seq<Owner>, mem': seq<Page>, owner': seq<Owner>)
    requires |owner| == |mem|
  {
    |mem'| == |mem| && |owner'| == |mem| &&
    forall p | 0 <= p < |mem| && (owner[p].User? || owner[p].Held?) && owner'[p] != Free :: mem'[p] == mem[p]
  }

  /** Only entries of d for lo to hi have changed. */
  ghost predicate Outside(mem: seq<Page>, owner: seq<Owner>, mem': seq<Page>, d: int, lo: int, hi: int)
    requires |owner| == |mem|
  {
    |mem'| == |mem| &&
    forall e, i, k {:trigger Entry(mem', e, i, k)} |
      0 <= e < |mem| && owner[e].Dir? && 0 <= i < ENTRIES && 0 <= k < ENTRIES
      && !(e == d && lo <= Vpn(i, k) < hi) ::
      Entry(mem', e, i, k) == Entry(mem, e, i, k)
  }

  ghost predicate Unmapped(mem: seq<Page>, d: int, lo: int, hi: int)
    requires 0 <= d < |mem|
  {
    forall i, k {:trigger Entry(mem, d, i, k)} | 0 <= i < ENTRIES && 0 <= k < ENTRIES && lo <= Vpn(i, k) < hi ::
      !Present(Entry(mem, d, i, k))
  }

  /** No two pages have the same place. */
  lemma OnePage(mem: seq<Page>, owner: seq<Owner>, p: int)
    requires Owned(mem, owner) && 0 <= p < |mem| && (owner[p].User? || owner[p].Table?)
    ensures forall q | 0 <= q < |mem| && owner[q] == owner[p] :: q == p
  {
    forall q | 0 <= q < |mem| && owner[q] == owner[p] ensures q == p {
      assert PageOk(mem, owner, p) && PageOk(mem, owner, q);
    }
  }

  lemma SetsLater(mem: seq<Page>, owner: seq<Owner>, mem1: seq<Page>, owner1: seq<Owner>, mem2: seq<Page>, d: int,
                  i: int, k: int, w: nat)
    requires |owner| == |mem| && |owner1| == |mem1| && SameSpaces(mem, owner, mem1)
    requires Sets(mem1, owner1, mem2, d, i, k, w)
    requires forall e | 0 <= e < |mem| && owner[e].Dir? :: owner1[e].Dir?
    ensures Sets(mem, owner, mem2, d, i, k, w)
  {
  }

  const PGSIZE := 4096
  const KERNBASE := 0x8000_0000

  /** PGROUNDUP, in pages. */
  function Pages(sz: nat): (n: nat)
  {
    (sz + PGSIZE - 1) / PGSIZE
  }

  function PageStart(v: nat): (a: nat) { v * PGSIZE }

  /** Going page by page stops after as many pages as sz rounds up to. */
  lemma PageStarts(sz: nat)
    ensures forall v: nat :: PageStart(v) < sz <==> v < Pages(sz)
    ensures sz <= KERNBASE ==> Pages(sz) <= USER * ENTRIES
  {
  }

  lemma PagesGrow(a: nat, b: nat)
    requires a <= b
    ensures Pages(a) <= Pages(b)
  {
  }

  /** Virtual pages lo to hi of d have been unmapped and their pages freed, and nothing else. */
  ghost predicate Shrunk(mem: seq<Page>, owner: seq<Owner>, mem': seq<Page>, owner': seq<Owner>, d: int, lo: int,
                         hi: int)
    requires |owner| == |mem| && 0 <= d < |mem|
  {
    && Outside(mem, owner, mem', d, lo, hi) && Unmapped(mem', d, lo, hi)
    && Loses(owner, owner', d, lo, hi) && KeepsData(mem, owner, mem', owner')
  }

  lemma ShrunkStep(mem: seq<Page>, owner: seq<Owner>, mem1: seq<Page>, owner1: seq<Owner>, mem2: seq<Page>,
                   owner2: seq<Owner>, d: int, lo: int, v: int, hi: int)
    requires |owner| == |mem| && 0 <= d < |mem| && owner[d].Dir? && lo <= v <= hi
    requires Shrunk(mem, owner, mem1, owner1, d, lo, v) && Shrunk(mem1, owner1, mem2, owner2, d, v, hi)
    ensures Shrunk(mem, owner, mem2, owner2, d, lo, hi)
  {
    forall i, k | 0 <= i < ENTRIES && 0 <= k < ENTRIES && lo <= Vpn(i, k) < hi ensures !Present(Entry(mem2, d, i, k)) {
      assert owner1[d].Dir?;
      if Vpn(i, k) < v { assert Entry(mem2, d, i, k) == Entry(mem1, d, i, k); }
    }
  }

  /** Where there is no table there are no pages. */
  lemma NothingOwned(mem: seq<Page>, owner: seq<Owner>, d: int, i: int, lo: int, hi: int)
    requires Owned(mem, owner) && 0 <= d < |mem| && 0 <= i < USER && !Present(mem[d][i])
    requires Vpn(i, 0) <= lo && hi <= Vpn(i + 1, 0)
    ensures forall p | 0 <= p < |mem| :: !Mine(owner[p], d, lo, hi)
  {
    forall p | 0 <= p < |mem| ensures !Mine(owner[p], d, lo, hi) {
      assert PageOk(mem, owner, p);
    }
  }

  lemma MineOne(mem: seq<Page>, owner: seq<Owner>, d: int, i: int, k: int)
    requires Owned(mem, owner) && 0 <= k < ENTRIES
    ensures forall p | 0 <= p < |mem| :: Mine(owner[p], d, Vpn(i, k), Vpn(i, k) + 1) <==> owner[p] == User(d, i, k)
  {
    forall p | 0 <= p < |mem| ensures Mine(owner[p], d, Vpn(i, k), Vpn(i, k) + 1) <==> owner[p] == User(d, i, k) {
      assert PageOk(mem, owner, p);
    }
  }

  lemma NothingAt(mem: seq<Page>, owner: seq<Owner>, d: int, i: int, k: int, t: int)
    requires Owned(mem, owner) && 0 <= d < |mem| && 0 <= i < USER && 0 <= k < ENTRIES
    requires 0 <= t < |mem| && Leads(mem, owner, d, i, t) && !Present(mem[t][k])
    ensures forall p | 0 <= p < |mem| :: !Mine(owner[p], d, Vpn(i, k), Vpn(i, k) + 1)
  {
    forall p | 0 <= p < |mem| ensures !Mine(owner[p], d, Vpn(i, k), Vpn(i, k) + 1) {
      assert PageOk(mem, owner, p);
    }
  }

  /** Page w of d is mapped to a zeroed page, writable by the user. */
  ghost predicate Zeroed(mem: seq<Page>, w: nat)
  {
    Present(w) && Flags(w) == 7 && Frame(w) < |mem| && mem[Frame(w)] == Filled(0)
  }

  ghost predicate AllZeroed(mem: seq<Page>, d: int, lo: int, hi: int)
    requires 0 <= d < |mem|
  {
    forall i, k {:trigger Entry(mem, d, i, k)} | 0 <= i < ENTRIES && 0 <= k < ENTRIES && lo <= Vpn(i, k) < hi ::
      Zeroed(mem, Entry(mem, d, i, k))
  }

  /** Virtual pages lo to hi of d have been mapped to zeroed pages taken from the free list. */
  ghost predicate Grown(mem: seq<Page>, owner: seq<Owner>, mem': seq<Page>, owner': seq<Owner>, d: int, lo: int,
                        hi: int)
    requires |owner| == |mem| && 0 <= d < |mem|
  {
    && Outside(mem, owner, mem', d, lo, hi) && AllZeroed(mem', d, lo, hi)
    && Gains(owner, owner', d, lo, hi) && KeepsData(mem, owner, mem', owner')
  }

  lemma GrownStep(mem: seq<Page>, owner: seq<Owner>, mem1: seq<Page>, owner1: seq<Owner>, mem2: seq<Page>,
                  owner2: seq<Owner>, d: int, lo: int, v: int)
    requires |owner| == |mem| && 0 <= d < |mem| && owner[d].Dir? && lo <= v && 0 <= v <= USER * ENTRIES
    requires Owned(mem1, owner1)
    requires Grown(mem, owner, mem1, owner1, d, lo, v) && Grown(mem1, owner1, mem2, owner2, d, v, v + 1)
    ensures Grown(mem, owner, mem2, owner2, d, lo, v + 1)
  {
    forall i, k | 0 <= i < ENTRIES && 0 <= k < ENTRIES && lo <= Vpn(i, k) < v + 1
      ensures Zeroed(mem2, Entry(mem2, d, i, k))
    {
      if Vpn(i, k) < v {
        assert Zeroed(mem1, Entry(mem1, d, i, k)) && Entry(mem2, d, i, k) == Entry(mem1, d, i, k);
        assert EntryOk(mem1, owner1, d, i) && EntryOk(mem1, owner1, Frame(mem1[d][i]), k);
      }
    }
  }

  ghost predicate SameMaps(mem: seq<Page>, owner: seq<Owner>, mem': seq<Page>)
    requires |owner| == |mem|
  {
    |mem'| == |mem| &&
    forall e, i, k {:trigger Entry(mem', e, i, k)} |
      0 <= e < |mem| && owner[e].Dir? && 0 <= i < ENTRIES && 0 <= k < ENTRIES ::
      if Present(Entry(mem, e, i, k)) then Entry(mem', e, i, k) == Entry(mem, e, i, k)
      else !Present(Entry(mem', e, i, k))
  }

  /** What has been grown and then shrunk has its old mappings; d keeps only tables. */
  lemma GrownShrunk(mem: seq<Page>, owner: seq<Owner>, mem1: seq<Page>, owner1: seq<Owner>, mem2: seq<Page>,
                    owner2: seq<Owner>, d: int, lo: int, v: int, hi: int)
    requires |owner| == |mem| && 0 <= d < |mem| && owner[d].Dir? && lo <= v <= hi && Unmapped(mem, d, lo, hi)
    requires forall p | 0 <= p < |mem| :: !Mine(owner[p], d, lo, hi)
    requires Grown(mem, owner, mem1, owner1, d, lo, v) && Shrunk(mem1, owner1, mem2, owner2, d, lo, hi)
    ensures SameMaps(mem, owner, mem2) && Gains(owner, owner2, d, 0, 0) && KeepsData(mem, owner, mem2, owner2)
  {
  }

  /** Unmapped virtual pages have no pages. */
  lemma NothingMine(mem: seq<Page>, owner: seq<Owner>, d: int, lo: int, hi: int)
    requires Owned(mem, owner) && 0 <= d < |mem| && Unmapped(mem, d, lo, hi)
    ensures forall p | 0 <= p < |mem| :: !Mine(owner[p], d, lo, hi)
  {
    forall p | 0 <= p < |mem| ensures !Mine(owner[p], d, lo, hi) {
      assert PageOk(mem, owner, p);
      if owner[p].User? && owner[p].dir == d { assert Entry(mem, d, owner[p].i, owner[p].k) % 2 == 1; }
    }
  }

  /** Shrinking while a page is held, and letting go of that page, is shrinking. */
  lemma ShrunkHolding(mem: seq<Page>, owner: seq<Owner>, memA: seq<Page>, ownerA: seq<Owner>, memB: seq<Page>,
                      ownerB: seq<Owner>, mem2: seq<Page>, owner2: seq<Owner>, d: int, lo: int, hi: int, p: int)
    requires |owner| == |mem| && 0 <= d < |mem| && owner[d].Dir?
    requires 0 <= p < |mem| && owner[p] == Free && ownerA == owner[p := Held]
    requires SameSpaces(mem, owner, memA) && KeepsData(mem, owner, memA, ownerA)
    requires Shrunk(memA, ownerA, memB, ownerB, d, lo, hi)
    requires owner2 == ownerB[p := Free] && SameExcept(memB, mem2, p) && SameSpaces(memB, ownerB, mem2)
    ensures Shrunk(mem, owner, mem2, owner2, d, lo, hi)
  {
    assert ownerA[d].Dir? && ownerB[d].Dir?;
    forall i, k | 0 <= i < ENTRIES && 0 <= k < ENTRIES && lo <= Vpn(i, k) < hi ensures !Present(Entry(mem2, d, i, k)) {
      assert Entry(mem2, d, i, k) == Entry(memB, d, i, k);
    }
    forall e, i, k | 0 <= e < |mem| && owner[e].Dir? && 0 <= i < ENTRIES && 0 <= k < ENTRIES
      && !(e == d && lo <= Vpn(i, k) < hi)
      ensures Entry(mem2, e, i, k) == Entry(mem, e, i, k)
    {
      assert ownerA[e].Dir? && ownerB[e].Dir?;
      assert Entry(mem2, e, i, k) == Entry(memB, e, i, k) == Entry(memA, e, i, k) == Entry(mem, e, i, k);
    }
  }

  // ---- taking a directory apart ----

  const ALL := ENTRIES * ENTRIES

  /** Page p is directory d, one of its tables or one of its user pages. */
  ghost predicate Belongs(owner: seq<Owner>, p: int, d: int)
    requires 0 <= p < |owner|
  {
    p == d || (owner[p].Table? && owner[p].dir == d) || (owner[p].User? && owner[p].dir == d)
  }

  ghost predicate NoUsers(owner: seq<Owner>, d: int)
  {
    forall p | 0 <= p < |owner| :: !(owner[p].User? && owner[p].dir == d)
  }

  /** The directory is out of use: its tables below entry i are free, the rest is held. */
  ghost predicate Torn(owner: seq<Owner>, owner': seq<Owner>, d: int, i: int)
  {
    |owner'| == |owner| &&
    forall p | 0 <= p < |owner| :: owner'[p] ==
      if p == d then Held
      else if owner[p].Table? && owner[p].dir == d then (if owner[p].i < i then Free else Held)
      else owner[p]
  }

  ghost function Detach(owner: seq<Owner>, d: int): (r: seq<Owner>)
  {
    seq(|owner|, p requires 0 <= p < |owner| =>
      if p == d || (owner[p].Table? && owner[p].dir == d) then Held else owner[p])
  }

  lemma Detached(mem: seq<Page>, owner: seq<Owner>, d: int, owner': seq<Owner>)
    requires Owned(mem, owner) && 0 <= d < |mem| && owner[d] == Dir && NoUsers(owner, d) && owner' == Detach(owner, d)
    ensures Owned(mem, owner') && Torn(owner, owner', d, 0)
  {
    forall q, k | 0 <= q < |mem| && 0 <= k < ENTRIES ensures EntryOk(mem, owner', q, k) {
      assert EntryOk(mem, owner, q, k) && PageOk(mem, owner, q);
    }
    forall q | 0 <= q < |mem| ensures PageOk(mem, owner', q) {
      assert PageOk(mem, owner, q);
    }
    forall q | 0 <= q < |mem| && owner[q].Table? && owner[q].dir == d ensures owner[q].i >= 0 {
      assert PageOk(mem, owner, q);
    }
  }

  /** Freeing the table of entry i, or finding none, is one step. */
  lemma TornStep(mem: seq<Page>, owner: seq<Owner>, owner1: seq<Owner>, owner2: seq<Owner>, d: int, i: int)
    requires Owned(mem, owner) && 0 <= d < |mem| && owner[d] == Dir && 0 <= i < ENTRIES && Torn(owner, owner1, d, i)
    requires Present(mem[d][i]) ==> Frame(mem[d][i]) < |owner1| && owner2 == owner1[Frame(mem[d][i]) := Free]
    requires !Present(mem[d][i]) ==> owner2 == owner1
    ensures Torn(owner, owner2, d, i + 1)
  {
    assert EntryOk(mem, owner, d, i);
    forall p | 0 <= p < |mem| && owner[p] == Table(d, i) ensures Present(mem[d][i]) && p == Frame(mem[d][i]) {
      assert PageOk(mem, owner, p);
    }
  }

  lemma TornAll(mem: seq<Page>, owner: seq<Owner>, owner': seq<Owner>, d: int)
    requires Owned(mem, owner) && Torn(owner, owner', d, ENTRIES)
    ensures forall p | 0 <= p < |owner| && p != d ::
      owner'[p] == if owner[p].Table? && owner[p].dir == d then Free else owner[p]
  {
    forall p | 0 <= p < |owner| && owner[p].Table? ensures owner[p].i < ENTRIES {
      assert PageOk(mem, owner, p);
    }
  }

  lemma AllUnmapped(mem: seq<Page>, owner: seq<Owner>, d: int, owner': seq<Owner>)
    requires Owned(mem, owner) && Loses(owner, owner', d, 0, Pages(KERNBASE))
    ensures NoUsers(owner', d)
    ensures forall p | 0 <= p < |owner| :: owner'[p] == if owner[p].User? && owner[p].dir == d then Free else owner[p]
  {
    forall p | 0 <= p < |owner| && owner[p].User? && owner[p].dir == d ensures Mine(owner[p], d, 0, Pages(KERNBASE)) {
      assert PageOk(mem, owner, p);
    }
  }

  // ---- counting pages ----

  /** The directory entries of d that have a table. */
  ghost function Tables(mem: seq<Page>, d: int): set<int>
    requires 0 <= d < |mem|
  {
    set i | 0 <= i < ENTRIES && Present(mem[d][i])
  }

  ghost predicate SameTables(mem: seq<Page>, owner: seq<Owner>, mem': seq<Page>)
    requires |owner| == |mem|
  {
    |mem'| == |mem| && forall e | 0 <= e < |mem| && owner[e].Dir? :: Tables(mem', e) == Tables(mem, e)
  }

  lemma SameDirs(mem: seq<Page>, owner: seq<Owner>, mem': seq<Page>, p: int)
    requires |owner| == |mem| && 0 <= p < |mem| && !owner[p].Dir? && SameExcept(mem, mem', p)
    ensures SameTables(mem, owner, mem')
  {
  }

  /** The directory entries for virtual pages lo up to hi. */
  ghost function Span(lo: nat, hi: nat): set<int>
    requires hi <= ALL
  {
    if lo < hi then Range(Pdx(lo), Pdx(hi - 1) + 1) else {}
  }

  lemma SpanStep(lo: nat, v: nat)
    requires lo <= v < ALL
    ensures Span(lo, v + 1) == Span(lo, v) + {Pdx(v)}
  {
  }

  lemma SpanMore(lo: nat, v: nat, hi: nat)
    requires lo <= v <= hi <= ALL
    ensures Span(lo, v) <= Span(lo, hi)
  {
  }

  /** From mem0 on, n pages and one for each new table of d have been taken off the free list;
      the new tables are those of `span`. */
  ghost predicate Took(mem0: seq<Page>, free0: int, mem: seq<Page>, free: int, d: int, span: set<int>, n: int)
  {
    && 0 <= d < |mem0| && 0 <= d < |mem|
    && Tables(mem, d) == Tables(mem0, d) + span
    && free + |Tables(mem, d)| + n == free0 + |Tables(mem0, d)|
  }

  lemma TookNone(mem: seq<Page>, free: int, d: int, v: nat)
    requires 0 <= d < |mem| && v <= ALL
    ensures Took(mem, free, mem, free, d, Span(v, v), 0)
  {
  }

  /** The tables then, and what had to be free for that. */
  lemma TookAll(mem0: seq<Page>, free0: int, mem: seq<Page>, free: int, d: int, span: set<int>, n: int)
    requires Took(mem0, free0, mem, free, d, span, n)
    ensures free == free0 - n - |span - Tables(mem0, d)| && Tables(mem, d) == Tables(mem0, d) + span
  {
    UnionSize(Tables(mem0, d), span);
  }

  /** One turn more, ... */
  lemma TookStep(mem0: seq<Page>, free0: int, mem1: seq<Page>, free1: int, mem: seq<Page>, free: int, d: int,
                 span: set<int>,
                 more: set<int>, n: int, m: int)
    requires Took(mem0, free0, mem1, free1, d, span, n) && 0 <= d < |mem| && Tables(mem, d) == Tables(mem1, d) + more
    requires free == free1 - m - |more - Tables(mem1, d)|
    ensures Took(mem0, free0, mem, free, d, span + more, n + m)
  {
    UnionSize(Tables(mem1, d), more);
    assert Tables(mem0, d) + (span + more) == (Tables(mem0, d) + span) + more;
  }

  /** ... or one for which the pages do not suffice: then they do not for the whole. */
  lemma TookShort(mem0: seq<Page>, free0: int, mem1: seq<Page>, free1: int, d: int, span: set<int>, more: set<int>,
                  n: int, m: int, all: set<int>, total: int)
    requires Took(mem0, free0, mem1, free1, d, span, n) && span + more <= all && n + m <= total
    requires free1 < m + |more - Tables(mem1, d)|
    ensures free0 < total + |all - Tables(mem0, d)|
  {
    var t := Tables(mem0, d);
    UnionSize(t + span, more);
    UnionSize(t, all);
    SubsetSize(t + span + more, t + all);
  }

  lemma Single(i: int, t: set<int>)
    ensures |{i} - t| == if i in t then 0 else 1
  {
    assert {i} - t == if i in t then {} else {i};
  }

  /** The same for one virtual page. */
  lemma TookPage(mem0: seq<Page>, free0: int, mem1: seq<Page>, free1: int, mem: seq<Page>, free: int, d: int, lo: nat,
                 v: nat,
                 n: int, m: int)
    requires lo <= v < ALL && Took(mem0, free0, mem1, free1, d, Span(lo, v), n)
    requires 0 <= d < |mem| && Tables(mem, d) == Tables(mem1, d) + {Pdx(v)}
    requires free == free1 - m - if Pdx(v) in Tables(mem1, d) then 0 else 1
    ensures Took(mem0, free0, mem, free, d, Span(lo, v + 1), n + m)
  {
    SpanStep(lo, v);
    Single(Pdx(v), Tables(mem1, d));
    TookStep(mem0, free0, mem1, free1, mem, free, d, Span(lo, v), {Pdx(v)}, n, m);
  }

  lemma TookPageShort(mem0: seq<Page>, free0: int, mem1: seq<Page>, free1: int, d: int, lo: nat, v: nat, hi: nat,
                      n: int, m: int, total: int)
    requires lo <= v < hi <= ALL && Took(mem0, free0, mem1, free1, d, Span(lo, v), n) && n + m <= total
    requires free1 < m + if Pdx(v) in Tables(mem1, d) then 0 else 1
    ensures free0 < total + |Span(lo, hi) - Tables(mem0, d)|
  {
    SpanStep(lo, v);
    SpanMore(lo, v + 1, hi);
    Single(Pdx(v), Tables(mem1, d));
    TookShort(mem0, free0, mem1, free1, d, Span(lo, v), {Pdx(v)}, n, m, Span(lo, hi), total);
  }

  /** The free pages that mapping virtual pages lo to hi of d will use, tables included. */
  ghost function Cost(mem: seq<Page>, d: int, lo: nat, hi: nat): int
    requires 0 <= d < |mem| && hi <= ALL
  {
    hi - lo + |Span(lo, hi) - Tables(mem, d)|
  }

  /** allocuvm has got from lo to v. */
  ghost predicate Growing(mem0: seq<Page>, owner0: seq<Owner>, free0: int, mem: seq<Page>, owner: seq<Owner>, free: int,
                          d: int, lo: nat, v: nat)
  {
    && |owner0| == |mem0| && 0 <= d < |mem0| && v <= ALL
    && Grown(mem0, owner0, mem, owner, d, lo, v) && Took(mem0, free0, mem, free, d, Span(lo, v), v - lo)
  }

  ghost predicate NoneMine(owner: seq<Owner>, d: int, lo: int, hi: int)
  {
    forall p | 0 <= p < |owner| :: !Mine(owner[p], d, lo, hi)
  }

  lemma GrowStart(mem: seq<Page>, owner: seq<Owner>, free: int, d: int, lo: nat, hi: nat)
    requires Owned(mem, owner) && 0 <= d < |owner| && owner[d] == Dir && lo <= hi <= USER * ENTRIES
    requires Unmapped(mem, d, lo, hi)
    ensures |owner| == |mem| && Growing(mem, owner, free, mem, owner, free, d, lo, lo)
    ensures NoneMine(owner, d, lo, hi)
  {
    NothingMine(mem, owner, d, lo, hi);
    TookNone(mem, free, d, lo);
  }

  lemma GrewStep(mem0: seq<Page>, owner0: seq<Owner>, free0: int, mem1: seq<Page>, owner1: seq<Owner>, free1: int,
                 mem: seq<Page>, owner: seq<Owner>, free: int, d: int, lo: nat, v: nat)
    requires Growing(mem0, owner0, free0, mem1, owner1, free1, d, lo, v) && owner0[d].Dir? && lo <= v < USER * ENTRIES
    requires Owned(mem1, owner1) && Grown(mem1, owner1, mem, owner, d, v, v + 1) && 0 <= d < |mem|
    requires Tables(mem, d) == Tables(mem1, d) + {Pdx(v)}
    requires free == free1 - 1 - if Pdx(v) in Tables(mem1, d) then 0 else 1
    ensures Growing(mem0, owner0, free0, mem, owner, free, d, lo, v + 1)
  {
    TookPage(mem0, free0, mem1, free1, mem, free, d, lo, v, v - lo, 1);
    hide Took, Tables, Span;
    GrownStep(mem0, owner0, mem1, owner1, mem, owner, d, lo, v);
  }

  lemma GrewShort(mem0: seq<Page>, owner0: seq<Owner>, free0: int, mem1: seq<Page>, owner1: seq<Owner>, free1: int,
                  d: int, lo: nat, v: nat, hi: nat)
    requires Growing(mem0, owner0, free0, mem1, owner1, free1, d, lo, v) && lo <= v < hi <= ALL
    requires free1 < 1 + if Pdx(v) in Tables(mem1, d) then 0 else 1
    ensures free0 < Cost(mem0, d, lo, hi)
  {
    TookPageShort(mem0, free0, mem1, free1, d, lo, v, hi, v - lo, 1, hi - lo);
  }

  lemma Grew(mem0: seq<Page>, owner0: seq<Owner>, free0: int, mem: seq<Page>, owner: seq<Owner>, free: nat,
             d: int, lo: nat, hi: nat)
    requires Growing(mem0, owner0, free0, mem, owner, free, d, lo, hi)
    ensures Grown(mem0, owner0, mem, owner, d, lo, hi) && free0 >= Cost(mem0, d, lo, hi)
  {
    TookAll(mem0, free0, mem, free, d, Span(lo, hi), hi - lo);
  }

  // ---- the kernel's mappings ----

  /** A kmap entry, in pages. */
  datatype Region = Region(first: nat, pages: nat, pa: nat, perm: nat) {
    ghost predicate Fits()
    {
      USER * ENTRIES <= first && 0 < pages && first + pages <= ALL && perm < 4096
    }
  }

  /** kmap, with V2P(data) in pages. */
  function Kmap(data: nat): (r: seq<Region>)
    requires 0x100 < data < 0xE000
    ensures Sorted(r)
  {
    [Region(0x80000, 0x100, 0, PTE_W),
     Region(0x80100, data - 0x100, 0x100, 0),
     Region(0x80000 + data, 0xE000 - data, data, PTE_W),
     Region(0xFE000, 0x2000, 0xFE000, PTE_W)]
  }

  /** The first n pages of the region are mapped one to one. */
  ghost predicate Linear(mem: seq<Page>, d: int, r: Region, n: nat)
    requires 0 <= d < |mem|
  {
    r.perm < 4096 &&
    forall i, k {:trigger Entry(mem, d, i, k)} |
      0 <= i < ENTRIES && 0 <= k < ENTRIES && r.first <= Vpn(i, k) < r.first + n ::
      Entry(mem, d, i, k) == Pte(r.pa + (Vpn(i, k) - r.first), r.perm)
  }

  /** A page that is no directory has nothing. */
  lemma NoDir(mem: seq<Page>, owner: seq<Owner>, d: int)
    requires Owned(mem, owner) && 0 <= d < |mem| && owner[d] != Dir
    ensures forall p | 0 <= p < |mem| && p != d :: !Belongs(owner, p, d)
  {
    forall p | 0 <= p < |mem| && p != d ensures !Belongs(owner, p, d) {
      assert PageOk(mem, owner, p);
    }
  }

  lemma NoEntries(mem: seq<Page>, d: int)
    requires 0 <= d < |mem| && mem[d] == Filled(0)
    ensures Unmapped(mem, d, 0, ALL)
  {
  }

  lemma StaysUnmapped(mem: seq<Page>, owner: seq<Owner>, mem': seq<Page>, d: int, lo: int, hi: int, lo': int, hi': int)
    requires |owner| == |mem| && 0 <= d < |mem| && owner[d].Dir? && Outside(mem, owner, mem', d, lo, hi)
    requires Unmapped(mem, d, lo', hi') && (hi <= lo' || hi' <= lo)
    ensures Unmapped(mem', d, lo', hi')
  {
    forall i, k | 0 <= i < ENTRIES && 0 <= k < ENTRIES && lo' <= Vpn(i, k) < hi'
      ensures !Present(Entry(mem', d, i, k))
    {
      assert Entry(mem', d, i, k) == Entry(mem, d, i, k);
    }
  }

  lemma StaysLinear(mem: seq<Page>, owner: seq<Owner>, mem': seq<Page>, d: int, lo: int, hi: int, r: Region)
    requires |owner| == |mem| && 0 <= d < |mem| && owner[d].Dir? && Outside(mem, owner, mem', d, lo, hi)
    requires Linear(mem, d, r, r.pages) && r.first + r.pages <= lo
    ensures Linear(mem', d, r, r.pages)
  {
    forall i, k | 0 <= i < ENTRIES && 0 <= k < ENTRIES && r.first <= Vpn(i, k) < r.first + r.pages
      ensures Entry(mem', d, i, k) == Pte(r.pa + (Vpn(i, k) - r.first), r.perm)
    {
      assert Entry(mem', d, i, k) == Entry(mem, d, i, k);
    }
  }

  lemma LinearStep(mem: seq<Page>, owner: seq<Owner>, mem1: seq<Page>, owner1: seq<Owner>, mem2: seq<Page>, d: int,
                   r: Region, n: nat, i: int, k: int)
    requires |owner| == |mem| == |mem1| == |owner1| && 0 <= d < |mem| && owner[d].Dir? && r.Fits() && n < r.pages
    requires forall e | 0 <= e < |mem| && owner[e].Dir? :: owner1[e].Dir?
    requires 0 <= i < ENTRIES && 0 <= k < ENTRIES && Vpn(i, k) == r.first + n
    requires Linear(mem1, d, r, n) && Outside(mem, owner, mem1, d, r.first, r.first + n)
    requires Sets(mem1, owner1, mem2, d, i, k, Pte(r.pa + n, r.perm))
    ensures Linear(mem2, d, r, n + 1) && Outside(mem, owner, mem2, d, r.first, r.first + n + 1)
  {
    forall i', k' | 0 <= i' < ENTRIES && 0 <= k' < ENTRIES && r.first <= Vpn(i', k') < r.first + n + 1
      ensures Entry(mem2, d, i', k') == Pte(r.pa + (Vpn(i', k') - r.first), r.perm)
    {
      assert Entry(mem2, d, i', k') == if i' == i && k' == k then Pte(r.pa + n, r.perm) else Entry(mem1, d, i', k');
    }
    forall e, i', k' | 0 <= e < |mem| && owner[e].Dir? && 0 <= i' < ENTRIES && 0 <= k' < ENTRIES
      && !(e == d && r.first <= Vpn(i', k') < r.first + n + 1)
      ensures Entry(mem2, e, i', k') == Entry(mem, e, i', k')
    {
      assert Entry(mem2, e, i', k') == Entry(mem1, e, i', k');
    }
  }

  /** The tables that mapping the region will add. */
  ghost function RegionCost(mem: seq<Page>, d: int, r: Region): nat
    requires 0 <= d < |mem| && r.Fits()
  {
    |Span(r.first, r.first + r.pages) - Tables(mem, d)|
  }

  /** mappages has mapped the first n pages of the region. */
  ghost predicate Mapping(mem0: seq<Page>, owner0: seq<Owner>, free0: int, mem: seq<Page>, owner: seq<Owner>, free: int,
                          d: int, r: Region, n: nat)
  {
    && |owner0| == |mem0| && 0 <= d < |mem0| == |mem| && r.Fits() && n <= r.pages
    && Linear(mem, d, r, n) && Outside(mem0, owner0, mem, d, r.first, r.first + n)
    && Gains(owner0, owner, d, 0, 0) && KeepsData(mem0, owner0, mem, owner)
    && Took(mem0, free0, mem, free, d, Span(r.first, r.first + n), 0)
  }

  lemma MappingStart(mem: seq<Page>, owner: seq<Owner>, free: int, d: int, r: Region)
    requires |owner| == |mem| && 0 <= d < |mem| && r.Fits()
    ensures Mapping(mem, owner, free, mem, owner, free, d, r, 0)
  {
    TookNone(mem, free, d, r.first);
  }

  lemma MappingIs(mem0: seq<Page>, owner0: seq<Owner>, free0: int, mem: seq<Page>, owner: seq<Owner>, free: int,
                  d: int, r: Region, n: nat)
    requires Mapping(mem0, owner0, free0, mem, owner, free, d, r, n) && |owner| == |mem| && owner0[d] == Dir
    requires n < r.pages
    requires Unmapped(mem0, d, r.first, r.first + r.pages)
    ensures 0 <= d < |owner| == |mem0| && owner[d] == Dir && !Present(Entry(mem, d, Pdx(r.first + n), Ptx(r.first + n)))
  {
    hide Linear, KeepsData, Took, Tables, Span;
    var i, k := Pdx(r.first + n), Ptx(r.first + n);
    assert Vpn(i, k) == r.first + n;
    assert Entry(mem, d, i, k) == Entry(mem0, d, i, k);
  }

  lemma MappingStep(mem0: seq<Page>, owner0: seq<Owner>, free0: int, mem1: seq<Page>, owner1: seq<Owner>, free1: int,
                    mem: seq<Page>, owner: seq<Owner>, free: int, d: int, r: Region, n: nat)
    requires Mapping(mem0, owner0, free0, mem1, owner1, free1, d, r, n) && owner0[d].Dir? && n < r.pages
    requires |owner1| == |mem1| == |mem| == |owner| && KeepsData(mem1, owner1, mem, owner)
    requires
      var i := Pdx(r.first + n);
      && Sets(mem1, owner1, mem, d, i, Ptx(r.first + n), Pte(r.pa + n, r.perm))
      && Tables(mem, d) == Tables(mem1, d) + {i} && free == free1 - (if i in Tables(mem1, d) then 0 else 1)
      && forall p | 0 <= p < |mem| :: owner[p] == owner1[p] || (owner1[p] == Free && owner[p] == Table(d, i))
    ensures Mapping(mem0, owner0, free0, mem, owner, free, d, r, n + 1)
  {
    hide Linear, Outside, Took, Tables, Span;
    var v := r.first + n;
    TookPage(mem0, free0, mem1, free1, mem, free, d, r.first, v, 0, 0);
    assert Vpn(Pdx(v), Ptx(v)) == v;
    LinearStep(mem0, owner0, mem1, owner1, mem, d, r, n, Pdx(v), Ptx(v));
  }

  lemma MappingShort(mem0: seq<Page>, owner0: seq<Owner>, free0: int, mem1: seq<Page>, owner1: seq<Owner>, free1: int,
                     d: int, r: Region, n: nat)
    requires Mapping(mem0, owner0, free0, mem1, owner1, free1, d, r, n) && n < r.pages
    requires free1 == 0 && Pdx(r.first + n) !in Tables(mem1, d)
    ensures free0 < RegionCost(mem0, d, r)
  {
    hide Linear, Outside, Gains, KeepsData, Took, Tables, Span;
    TookPageShort(mem0, free0, mem1, free1, d, r.first, r.first + n, r.first + r.pages, 0, 0, 0);
  }

  lemma MappingEnd(mem0: seq<Page>, owner0: seq<Owner>, free0: int, mem: seq<Page>, owner: seq<Owner>, free: nat,
                   d: int, r: Region, n: nat)
    requires Mapping(mem0, owner0, free0, mem, owner, free, d, r, n)
    ensures Outside(mem0, owner0, mem, d, r.first, r.first + r.pages)
    ensures Gains(owner0, owner, d, 0, 0) && KeepsData(mem0, owner0, mem, owner)
    ensures n == r.pages ==>
      && Linear(mem, d, r, r.pages) && free == free0 - RegionCost(mem0, d, r)
      && Tables(mem, d) == Tables(mem0, d) + Span(r.first, r.first + r.pages)
  {
    hide Linear, Gains, KeepsData, Took, Tables, Span;
    TookAll(mem0, free0, mem, free, d, Span(r.first, r.first + n), 0);
  }

  ghost predicate Sorted(r: seq<Region>)
  {
    && (forall j | 0 <= j < |r| :: r[j].Fits())
    && (forall j, l | 0 <= j < l < |r| :: r[j].first + r[j].pages <= r[l].first)
  }

  /** The page is in one of the first j regions. */
  ghost predicate Within(regions: seq<Region>, j: nat, v: int)
  {
    exists l :: 0 <= l < j <= |regions| && regions[l].first <= v < regions[l].first + regions[l].pages
  }

  /** Nothing outside of the first j regions is mapped. */
  ghost predicate NothingElse(mem: seq<Page>, d: int, regions: seq<Region>, j: nat)
    requires 0 <= d < |mem|
  {
    forall i, k {:trigger Entry(mem, d, i, k)} |
      0 <= i < ENTRIES && 0 <= k < ENTRIES && Present(Entry(mem, d, i, k)) :: Within(regions, j, Vpn(i, k))
  }

  lemma NothingElseStep(mem: seq<Page>, owner: seq<Owner>, mem': seq<Page>, d: int, regions: seq<Region>, j: nat)
    requires |owner| == |mem| == |mem'| && 0 <= d < |mem| && owner[d].Dir? && j < |regions|
    requires NothingElse(mem, d, regions, j)
    requires Outside(mem, owner, mem', d, regions[j].first, regions[j].first + regions[j].pages)
    ensures NothingElse(mem', d, regions, j + 1)
  {
    forall i, k | 0 <= i < ENTRIES && 0 <= k < ENTRIES && Present(Entry(mem', d, i, k))
      ensures Within(regions, j + 1, Vpn(i, k))
    {
      if !(regions[j].first <= Vpn(i, k) < regions[j].first + regions[j].pages) {
        assert Entry(mem', d, i, k) == Entry(mem, d, i, k);
        assert Within(regions, j, Vpn(i, k));
      }
    }
  }

  /** The tables of d for the regions before j are in place; the rest is unmapped. */
  ghost predicate Placed(mem: seq<Page>, d: int, regions: seq<Region>, j: nat)
    requires 0 <= d < |mem| && j <= |regions|
  {
    && Unmapped(mem, d, 0, USER * ENTRIES) && NothingElse(mem, d, regions, j)
    && (j < |regions| ==> Unmapped(mem, d, regions[j].first, ALL))
    && (forall l | 0 <= l < j :: Linear(mem, d, regions[l], regions[l].pages))
  }

  lemma PlacedStep(mem: seq<Page>, owner: seq<Owner>, mem': seq<Page>, d: int, regions: seq<Region>, j: nat)
    requires |owner| == |mem| == |mem'| && 0 <= d < |mem| && owner[d].Dir? && j < |regions| && Sorted(regions)
    requires Placed(mem, d, regions, j) && Linear(mem', d, regions[j], regions[j].pages)
    requires Outside(mem, owner, mem', d, regions[j].first, regions[j].first + regions[j].pages)
    ensures Placed(mem', d, regions, j + 1)
  {
    var lo, hi := regions[j].first, regions[j].first + regions[j].pages;
    StaysUnmapped(mem, owner, mem', d, lo, hi, 0, USER * ENTRIES);
    NothingElseStep(mem, owner, mem', d, regions, j);
    if j + 1 < |regions| {
      StaysUnmapped(mem, owner, mem', d, lo, hi, regions[j + 1].first, ALL);
    }
    forall l | 0 <= l < j ensures Linear(mem', d, regions[l], regions[l].pages) {
      StaysLinear(mem, owner, mem', d, lo, hi, regions[l]);
    }
  }

  /** The directory entries that the first j regions need. */
  ghost function Spans(regions: seq<Region>, j: nat): set<int>
    requires j <= |regions| && forall l | 0 <= l < |regions| :: regions[l].Fits()
  {
    if j == 0 then {}
    else Spans(regions, j - 1) + Span(regions[j - 1].first, regions[j - 1].first + regions[j - 1].pages)
  }

  lemma {:induction false} SpansMore(regions: seq<Region>, j: nat, l: nat)
    requires j <= l <= |regions| && forall l | 0 <= l < |regions| :: regions[l].Fits()
    ensures Spans(regions, j) <= Spans(regions, l)
    decreases l
  {
    hide Span;
    if j < l { SpansMore(regions, j, l - 1); }
  }

  /** setupkvm has mapped the first j regions. */
  ghost predicate Placing(mem0: seq<Page>, owner0: seq<Owner>, free0: int, mem: seq<Page>, owner: seq<Owner>, free: int,
                          d: int, regions: seq<Region>, j: nat)
  {
    && |owner0| == |mem0| == |mem| == |owner| && 0 <= d < |mem0| && Sorted(regions) && j <= |regions|
    && Placed(mem, d, regions, j) && Outside(mem0, owner0, mem, d, 0, ALL)
    && Gains(owner0, owner, d, 0, 0) && KeepsData(mem0, owner0, mem, owner)
    && Took(mem0, free0, mem, free, d, Spans(regions, j), 0)
  }

  lemma PlacingStart(mem: seq<Page>, owner: seq<Owner>, free: int, d: int, regions: seq<Region>)
    requires |owner| == |mem| && 0 <= d < |mem| && Sorted(regions) && Unmapped(mem, d, 0, ALL)
    ensures Placing(mem, owner, free, mem, owner, free, d, regions, 0)
  {
  }

  lemma PlacingIs(mem0: seq<Page>, owner0: seq<Owner>, free0: int, mem: seq<Page>, owner: seq<Owner>, free: int,
                  d: int, regions: seq<Region>, j: nat)
    requires Placing(mem0, owner0, free0, mem, owner, free, d, regions, j) && j < |regions| && owner0[d] == Dir
    ensures 0 <= d < |owner| && owner[d] == Dir && |mem| == |owner0| == |mem0| == |owner|
    ensures regions[j].Fits() && Unmapped(mem, d, regions[j].first, regions[j].first + regions[j].pages)
  {
    hide Took, Tables, Spans, Linear, Outside, KeepsData;
  }

  /** A region more, complete or not. */
  lemma PlacingFrame(mem0: seq<Page>, owner0: seq<Owner>, free0: int, mem1: seq<Page>, owner1: seq<Owner>, free1: int,
                     mem: seq<Page>, owner: seq<Owner>, d: int, regions: seq<Region>, j: nat)
    requires Placing(mem0, owner0, free0, mem1, owner1, free1, d, regions, j) && j < |regions|
    requires |mem| == |mem1| == |owner| && Gains(owner1, owner, d, 0, 0) && KeepsData(mem1, owner1, mem, owner)
    requires Outside(mem1, owner1, mem, d, regions[j].first, regions[j].first + regions[j].pages)
    ensures Outside(mem0, owner0, mem, d, 0, ALL) && Gains(owner0, owner, d, 0, 0)
    ensures KeepsData(mem0, owner0, mem, owner)
  {
    hide Took, Tables, Spans, Linear, Unmapped;
  }

  lemma PlacingStep(mem0: seq<Page>, owner0: seq<Owner>, free0: int, mem1: seq<Page>, owner1: seq<Owner>, free1: int,
                    mem: seq<Page>, owner: seq<Owner>, free: int, d: int, regions: seq<Region>, j: nat)
    requires Placing(mem0, owner0, free0, mem1, owner1, free1, d, regions, j) && j < |regions| && owner1[d] == Dir
    requires |mem| == |mem1| == |owner| && Linear(mem, d, regions[j], regions[j].pages)
    requires Outside(mem1, owner1, mem, d, regions[j].first, regions[j].first + regions[j].pages)
    requires Outside(mem0, owner0, mem, d, 0, ALL) && Gains(owner0, owner, d, 0, 0)
    requires KeepsData(mem0, owner0, mem, owner)
    requires regions[j].Fits() && free == free1 - RegionCost(mem1, d, regions[j])
    requires Tables(mem, d) == Tables(mem1, d) + Span(regions[j].first, regions[j].first + regions[j].pages)
    ensures Placing(mem0, owner0, free0, mem, owner, free, d, regions, j + 1)
  {
    hide Took, Tables, Span, Linear, Outside, Gains, KeepsData;
    var span := Span(regions[j].first, regions[j].first + regions[j].pages);
    TookStep(mem0, free0, mem1, free1, mem, free, d, Spans(regions, j), span, 0, 0);
    PlacedStep(mem1, owner1, mem, d, regions, j);
  }

  lemma PlacingShort(mem0: seq<Page>, owner0: seq<Owner>, free0: int, mem1: seq<Page>, owner1: seq<Owner>, free1: int,
                     d: int, regions: seq<Region>, j: nat)
    requires Placing(mem0, owner0, free0, mem1, owner1, free1, d, regions, j) && j < |regions|
    requires regions[j].Fits() && free1 < RegionCost(mem1, d, regions[j])
    ensures free0 < |Spans(regions, |regions|) - Tables(mem0, d)|
  {
    hide Took, Tables, Span, Linear, Outside, Gains, KeepsData, Placed;
    var span := Span(regions[j].first, regions[j].first + regions[j].pages);
    SpansMore(regions, j + 1, |regions|);
    TookShort(mem0, free0, mem1, free1, d, Spans(regions, j), span, 0, 0, Spans(regions, |regions|), 0);
  }

  lemma PlacingEnd(mem0: seq<Page>, owner0: seq<Owner>, free0: int, mem: seq<Page>, owner: seq<Owner>, free: nat,
                   d: int, regions: seq<Region>)
    requires Placing(mem0, owner0, free0, mem, owner, free, d, regions, |regions|)
    ensures Placed(mem, d, regions, |regions|) && Outside(mem0, owner0, mem, d, 0, ALL)
    ensures Gains(owner0, owner, d, 0, 0) && KeepsData(mem0, owner0, mem, owner)
    ensures free == free0 - |Spans(regions, |regions|) - Tables(mem0, d)|
    ensures Tables(mem, d) == Tables(mem0, d) + Spans(regions, |regions|)
  {
    hide Took, Tables, Span, Spans, Linear, Outside, Gains, KeepsData, Placed;
    TookAll(mem0, free0, mem, free, d, Spans(regions, |regions|), 0);
  }

  /** Virtual page v in the kernel's address space: physical memory from 0x80000 on, the devices at
      their own addresses; present and writable (3), or only present (1) from the kernel's text up to
      its data; nothing for users. */
  ghost predicate KernelEntry(v: int, pte: nat, data: nat)
  {
    && (Present(pte) <==> 0x80000 <= v < 0x8E000 || 0xFE000 <= v)
    && (Present(pte) && v < 0x8E000 ==> Frame(pte) == v - 0x80000)
    && (Present(pte) && 0xFE000 <= v ==> Frame(pte) == v)
    && (Present(pte) ==> Flags(pte) == if 0x80100 <= v < 0x80000 + data then 1 else 3)
  }

  ghost predicate KernelSpace(mem: seq<Page>, d: int, lo: int, data: nat)
    requires 0 <= d < |mem|
  {
    forall i, k {:trigger Entry(mem, d, i, k)} | 0 <= i < ENTRIES && 0 <= k < ENTRIES && lo <= Vpn(i, k) ::
      KernelEntry(Vpn(i, k), Entry(mem, d, i, k), data)
  }

  lemma StaysKernel(mem: seq<Page>, owner: seq<Owner>, mem': seq<Page>, d: int, hi: int, data: nat)
    requires |owner| == |mem| && 0 <= d < |mem| && owner[d].Dir? && Outside(mem, owner, mem', d, 0, hi)
    requires KernelSpace(mem, d, 0, data)
    ensures KernelSpace(mem', d, hi, data)
  {
    forall i, k | 0 <= i < ENTRIES && 0 <= k < ENTRIES && hi <= Vpn(i, k)
      ensures KernelEntry(Vpn(i, k), Entry(mem', d, i, k), data)
    {
      assert Entry(mem', d, i, k) == Entry(mem, d, i, k);
    }
  }

  lemma NoUserPages(mem: seq<Page>, d: int, data: nat)
    requires 0 <= d < |mem| && KernelSpace(mem, d, 0, data)
    ensures Unmapped(mem, d, 0, USER * ENTRIES)
  {
  }

  /** The regions of kmap make exactly that. */
  lemma KmapMeans(mem: seq<Page>, d: int, data: nat)
    requires 0 <= d < |mem| && 0x100 < data < 0xE000 && Placed(mem, d, Kmap(data), |Kmap(data)|)
    ensures KernelSpace(mem, d, 0, data)
  {
    var r := Kmap(data);
    forall i, k | 0 <= i < ENTRIES && 0 <= k < ENTRIES ensures KernelEntry(Vpn(i, k), Entry(mem, d, i, k), data) {
      var v := Vpn(i, k);
      if 0x80000 <= v < 0x80100 {
        RegionEntry(mem, d, r[0], i, k);
      } else if 0x80100 <= v < 0x80000 + data {
        RegionEntry(mem, d, r[1], i, k);
      } else if 0x80000 + data <= v < 0x8E000 {
        RegionEntry(mem, d, r[2], i, k);
      } else if 0xFE000 <= v {
        RegionEntry(mem, d, r[3], i, k);
      } else {
        NotWithin(data, v);
      }
    }
  }

  lemma RegionEntry(mem: seq<Page>, d: int, r: Region, i: int, k: int)
    requires 0 <= d < |mem| && Linear(mem, d, r, r.pages) && 0 <= i < ENTRIES && 0 <= k < ENTRIES
    requires r.first <= Vpn(i, k) < r.first + r.pages && r.perm % 2 == 0
    ensures
      var pte := Entry(mem, d, i, k);
      Present(pte) && Frame(pte) == r.pa + Vpn(i, k) - r.first && Flags(pte) == r.perm + 1
  {
  }

  lemma NotWithin(data: nat, v: int)
    requires 0x100 < data < 0xE000 && !(0x80000 <= v < 0x8E000) && !(0xFE000 <= v < 0x100000)
    ensures !Within(Kmap(data), |Kmap(data)|, v)
  {
  }

  /** A directory for the kernel: itself and its tables, 56 for memory and 8 for devices. */
  const KVMPAGES := 1 + 56 + 8

  lemma KmapSpans(data: nat)
    requires 0x100 < data < 0xE000
    ensures |Kmap(data)| == 4 && Spans(Kmap(data), 4) == Range(512, 568) + Range(1016, 1024)
    ensures |Spans(Kmap(data), 4)| == KVMPAGES - 1
  {
    hide Range;
    var r := Kmap(data);
    assert Spans(r, 1) == Range(512, 513);
    assert Spans(r, 2) == Range(512, Pdx(0x80000 + data - 1) + 1);
    assert Spans(r, 3) == Range(512, 568) by {
      assert Pdx(0x80000 + data) <= Pdx(0x80000 + data - 1) + 1;
    }
    assert Span(0xFE000, 0x100000) == Range(1016, 1024);
    UnionSize(Range(512, 568), Range(1016, 1024));
    assert Range(1016, 1024) - Range(512, 568) == Range(1016, 1024);
  }

  ghost predicate NoUserTables(mem: seq<Page>, d: int)
    requires 0 <= d < |mem|
  {
    forall i | 0 <= i < USER :: !Present(mem[d][i])
  }

  /** A new directory has no tables, and then those of the kernel. */
  lemma KmapCost(mem0: seq<Page>, mem: seq<Page>, d: int, data: nat)
    requires 0 <= d < |mem0| && 0 <= d < |mem| && mem0[d] == Filled(0) && 0x100 < data < 0xE000
    ensures |Kmap(data)| == 4 && |Spans(Kmap(data), 4) - Tables(mem0, d)| == KVMPAGES - 1
    ensures Tables(mem, d) == Tables(mem0, d) + Spans(Kmap(data), 4) ==> NoUserTables(mem, d)
  {
    hide Spans, Span, Kmap, Range;
    KmapSpans(data);
    assert Tables(mem0, d) == {};
    assert Spans(Kmap(data), 4) - Tables(mem0, d) == Spans(Kmap(data), 4);
    if Tables(mem, d) == Tables(mem0, d) + Spans(Kmap(data), 4) {
      forall i | 0 <= i < USER ensures !Present(mem[d][i]) {
        assert i !in Tables(mem, d);
      }
    }
  }

  /** The tables for n user pages, of a directory that has only the kernel's. */
  lemma UserCost(mem: seq<Page>, d: int, n: nat)
    requires 0 <= d < |mem| && n <= USER * ENTRIES && NoUserTables(mem, d)
    ensures Cost(mem, d, 0, n) == n + (n + ENTRIES - 1) / ENTRIES
  {
    hide Range;
    assert Span(0, n) - Tables(mem, d) == Span(0, n);
  }

  /** Taking apart what was built from free pages restores every owner. */
  lemma BuiltAndTorn(mem: seq<Page>, owner: seq<Owner>, owner1: seq<Owner>, owner2: seq<Owner>, d: int, lo: int,
                     hi: int)
    requires Owned(mem, owner) && 0 <= d < |mem| && owner[d] == Free && Gains(owner[d := Dir], owner1, d, lo, hi)
    requires |owner2| == |owner1|
    requires forall p | 0 <= p < |owner1| :: owner2[p] == if Belongs(owner1, p, d) then Free else owner1[p]
    ensures owner2 == owner
  {
    NoDir(mem, owner, d);
    forall p | 0 <= p < |owner| ensures owner2[p] == owner[p] {
      assert !Belongs(owner, p, d) || p == d;
      assert owner1[p] == owner[d := Dir][p] || owner[p].Free?;
    }
  }

  // ---- copying an address space ----

  /** Entry x maps another page with the contents and flags of w's. */
  ghost predicate Copy(mem: seq<Page>, w: nat, x: nat)
  {
    && Present(w) && Present(x) && Flags(x) == Flags(w)
    && Frame(w) < |mem| && Frame(x) < |mem| && Frame(x) != Frame(w) && mem[Frame(x)] == mem[Frame(w)]
  }

  /** Directory c maps copies of d's first n virtual pages and no other user page. */
  ghost predicate Copied(mem: seq<Page>, d: int, c: int, n: int)
    requires 0 <= d < |mem| && 0 <= c < |mem|
  {
    && (forall i, k {:trigger Entry(mem, c, i, k)} | 0 <= i < ENTRIES && 0 <= k < ENTRIES && Vpn(i, k) < n ::
          Copy(mem, Entry(mem, d, i, k), Entry(mem, c, i, k)))
    && Unmapped(mem, c, n, USER * ENTRIES)
  }

  ghost predicate Mapped(mem: seq<Page>, d: int, n: int)
    requires 0 <= d < |mem|
  {
    forall i, k {:trigger Entry(mem, d, i, k)} | 0 <= i < ENTRIES && 0 <= k < ENTRIES && Vpn(i, k) < n ::
      Present(Entry(mem, d, i, k))
  }

  lemma CopiedStep(mem: seq<Page>, owner: seq<Owner>, mem': seq<Page>, owner': seq<Owner>, d: int, c: int, v: nat)
    requires Owned(mem, owner) && 0 <= d < |mem| && 0 <= c < |mem| && owner[d].Dir? && owner[c].Dir? && d != c
    requires v < USER * ENTRIES
    requires |mem'| == |mem| && Copied(mem, d, c, v) && Outside(mem, owner, mem', c, v, v + 1)
    requires Gains(owner, owner', c, v, v + 1) && KeepsData(mem, owner, mem', owner')
    requires Copy(mem', Entry(mem', d, Pdx(v), Ptx(v)), Entry(mem', c, Pdx(v), Ptx(v)))
    ensures Copied(mem', d, c, v + 1)
  {
    forall i, k | 0 <= i < ENTRIES && 0 <= k < ENTRIES && Vpn(i, k) < v + 1
      ensures Copy(mem', Entry(mem', d, i, k), Entry(mem', c, i, k))
    {
      if Vpn(i, k) < v {
        assert Entry(mem', c, i, k) == Entry(mem, c, i, k) && Entry(mem', d, i, k) == Entry(mem, d, i, k);
        UserPage(mem, owner, d, i, k);
        UserPage(mem, owner, c, i, k);
      } else {
        assert i == Pdx(v) && k == Ptx(v);
      }
    }
    StaysUnmapped(mem, owner, mem', c, v, v + 1, v + 1, USER * ENTRIES);
  }

  /** copyuvm has copied the first v pages of d to c. */
  ghost predicate Copying(mem0: seq<Page>, owner0: seq<Owner>, free0: int, mem: seq<Page>, owner: seq<Owner>, free: int,
                          d: int, c: int, v: nat)
  {
    && |owner0| == |mem0| == |mem| == |owner| && 0 <= d < |mem| && 0 <= c < |mem| && v <= USER * ENTRIES
    && Copied(mem, d, c, v) && Outside(mem0, owner0, mem, c, 0, v) && Gains(owner0, owner, c, 0, v)
    && KeepsData(mem0, owner0, mem, owner) && Took(mem0, free0, mem, free, c, Span(0, v), v)
  }

  lemma CopyingStart(mem: seq<Page>, owner: seq<Owner>, free: int, d: int, c: int)
    requires |owner| == |mem| && 0 <= d < |mem| && 0 <= c < |mem| && Unmapped(mem, c, 0, USER * ENTRIES)
    ensures Copying(mem, owner, free, mem, owner, free, d, c, 0)
  {
    TookNone(mem, free, c, 0);
    hide Took, Tables, Span;
  }

  lemma CopyingIs(mem0: seq<Page>, owner0: seq<Owner>, free0: int, mem: seq<Page>, owner: seq<Owner>, free: int,
                  d: int, c: int, v: nat, n: nat)
    requires Copying(mem0, owner0, free0, mem, owner, free, d, c, v) && owner0[d] == owner0[c] == Dir && d != c
    requires v < n <= USER * ENTRIES
    requires Mapped(mem0, d, n) && Unmapped(mem0, c, 0, USER * ENTRIES)
    ensures 0 <= d < |owner| && 0 <= c < |owner| && |mem| == |owner0| == |mem0| == |owner|
    ensures owner[d] == owner[c] == Dir && Present(Entry(mem, d, Pdx(v), Ptx(v))) && Unmapped(mem, c, v, v + 1)
  {
    hide Copied, KeepsData, Took, Tables, Span;
    var i, k := Pdx(v), Ptx(v);
    assert Vpn(i, k) == v;
    assert Entry(mem, d, i, k) == Entry(mem0, d, i, k);
    StaysUnmapped(mem0, owner0, mem, c, 0, v, v, v + 1);
  }

  lemma CopyingStep(mem0: seq<Page>, owner0: seq<Owner>, free0: int, mem1: seq<Page>, owner1: seq<Owner>, free1: int,
                    mem: seq<Page>, owner: seq<Owner>, free: int, d: int, c: int, v: nat)
    requires Copying(mem0, owner0, free0, mem1, owner1, free1, d, c, v) && Owned(mem1, owner1) && d != c
    requires v < USER * ENTRIES
    requires owner1[d] == owner1[c] == Dir && |mem| == |owner| == |mem1|
    requires Outside(mem1, owner1, mem, c, v, v + 1) && Gains(owner1, owner, c, v, v + 1)
    requires KeepsData(mem1, owner1, mem, owner)
    requires Copy(mem, Entry(mem, d, Pdx(v), Ptx(v)), Entry(mem, c, Pdx(v), Ptx(v)))
    requires Tables(mem, c) == Tables(mem1, c) + {Pdx(v)}
    requires free == free1 - 1 - if Pdx(v) in Tables(mem1, c) then 0 else 1
    ensures Copying(mem0, owner0, free0, mem, owner, free, d, c, v + 1)
  {
    hide Took, Tables, Span, Copy;
    TookPage(mem0, free0, mem1, free1, mem, free, c, 0, v, v, 1);
    CopiedStep(mem1, owner1, mem, owner, d, c, v);
    hide Copied;
  }

  lemma CopyingShort(mem0: seq<Page>, owner0: seq<Owner>, free0: int, mem1: seq<Page>, owner1: seq<Owner>, free1: int,
                     mem: seq<Page>, owner: seq<Owner>, d: int, c: int, v: nat, n: nat)
    requires Copying(mem0, owner0, free0, mem1, owner1, free1, d, c, v) && v < n <= USER * ENTRIES
    requires |mem| == |owner| == |mem1| && owner == owner1 && SameSpaces(mem1, owner1, mem)
    requires KeepsData(mem1, owner1, mem, owner)
    requires free1 < 1 + if Pdx(v) in Tables(mem1, c) then 0 else 1
    ensures free0 < Cost(mem0, c, 0, n) && Outside(mem0, owner0, mem, c, 0, v)
    ensures Gains(owner0, owner, c, 0, v) && KeepsData(mem0, owner0, mem, owner)
  {
    hide Took, Tables, Span, Copied;
    TookPageShort(mem0, free0, mem1, free1, c, 0, v, n, v, 1, n);
  }

  lemma CopyingMore(mem0: seq<Page>, owner0: seq<Owner>, mem: seq<Page>, owner: seq<Owner>, c: int, v: nat, n: nat)
    requires |owner0| == |mem0| == |mem| == |owner| && 0 <= c < |mem| && v <= n
    requires Outside(mem0, owner0, mem, c, 0, v) && Gains(owner0, owner, c, 0, v)
    ensures Outside(mem0, owner0, mem, c, 0, n) && Gains(owner0, owner, c, 0, n)
  {
  }

  lemma CopyingEnd(mem0: seq<Page>, owner0: seq<Owner>, free0: int, mem: seq<Page>, owner: seq<Owner>, free: nat,
                   d: int, c: int, n: nat)
    requires Copying(mem0, owner0, free0, mem, owner, free, d, c, n)
    ensures Copied(mem, d, c, n) && Outside(mem0, owner0, mem, c, 0, n) && Gains(owner0, owner, c, 0, n)
    ensures KeepsData(mem0, owner0, mem, owner) && free0 >= Cost(mem0, c, 0, n)
  {
    hide Took, Tables, Span, Copied, Outside, Gains, KeepsData;
    TookAll(mem0, free0, mem, free, c, Span(0, n), n);
  }

  lemma UserPage(mem: seq<Page>, owner: seq<Owner>, d: int, i: int, k: int)
    requires Owned(mem, owner) && 0 <= d < |mem| && owner[d].Dir? && 0 <= i < USER && 0 <= k < ENTRIES
    requires Present(Entry(mem, d, i, k))
    ensures Frame(Entry(mem, d, i, k)) < |mem| && owner[Frame(Entry(mem, d, i, k))] == User(d, i, k)
  {
    assert EntryOk(mem, owner, d, i) && EntryOk(mem, owner, Frame(mem[d][i]), k);
  }

  /** No physical page is mapped twice below KERNBASE, in one directory or in two. */
  lemma SpacesDisjoint(mem: seq<Page>, owner: seq<Owner>, d: int, i: int, k: int, c: int, j: int, l: int)
    requires Owned(mem, owner) && 0 <= d < |mem| && owner[d].Dir? && 0 <= c < |mem| && owner[c].Dir?
    requires 0 <= i < USER && 0 <= k < ENTRIES && Present(Entry(mem, d, i, k))
    requires 0 <= j < USER && 0 <= l < ENTRIES && Present(Entry(mem, c, j, l))
    ensures Frame(Entry(mem, d, i, k)) == Frame(Entry(mem, c, j, l)) <==> d == c && i == j && k == l
  {
    UserPage(mem, owner, d, i, k);
    UserPage(mem, owner, c, j, l);
  }
}

module Vm {
  import opened VmSpec

  const JUNK := 0x01010101

  class Vm {
    var mem: seq<Page>
    var freelist: int           // 0 is the null pointer
    ghost var free: seq<int>
    ghost var owner: seq<Owner>

    ghost predicate Valid()
      reads this
    {
      && Owned(mem, owner) && |mem| > 0 && owner[0] == Kernel
      && List(mem, freelist, free) && Lists(owner, free)
    }

    ghost predicate IsDir(d: int)
      reads this
    {
      0 <= d < |owner| && owner[d] == Dir
    }

    /** 1 if directory entry i of d has no table. */
    ghost function NoTable(d: int, i: int): nat
      reads this
      requires 0 <= d < |mem|
    {
      if i in Tables(mem, d) then 0 else 1
    }

    /** kinit: the pages from lo up are put on the free list, lowest first. */
    constructor Kinit(pages: seq<Page>, lo: nat)
      requires 0 < lo <= |pages|
      ensures |owner| == |mem| == |pages|
      ensures forall p | 0 <= p < |mem| :: owner[p] == if p < lo then Kernel else Free
      ensures Valid()
    {
      mem, freelist, free := pages, 0, [];
      owner := seq(|pages|, p requires 0 <= p < |pages| => if p < lo then Kernel else Held);
      new;
      forall p, k | 0 <= p < |mem| && 0 <= k < ENTRIES ensures EntryOk(mem, owner, p, k) {
      }
      forall p | 0 <= p < |mem| ensures PageOk(mem, owner, p) {
      }
      var p := lo;
      while p < |mem|
        invariant lo <= p <= |mem| == |pages| && |owner| == |mem|
        invariant forall q | 0 <= q < |mem| :: owner[q] == if q < lo then Kernel else if q < p then Free else Held
        invariant Valid()
      {
        Release(p);
        p := p + 1;
      }
    }

    /** Pages that are not the kernel's own can be freed: the kfree panic is not reached. */
    method Kfree(p: int)
      requires List(mem, freelist, free) && |owner| == |mem| && 0 < p < |mem| && owner[p] != Kernel
      requires p !in free
      modifies this`mem, this`freelist, this`free
      ensures SameExcept(old(mem), mem, p)
      ensures free == [p] + old(free) && List(mem, freelist, free)
    {
      var page := Filled(JUNK)[0 := freelist];
      ListPush(mem, freelist, free, p, mem[p := page]);
      mem := mem[p := page];
      freelist := p;
      free := [p] + free;
    }

    method Kalloc() returns (p: int)
      requires Valid()
      modifies this`freelist, this`free, this`owner
      ensures p == 0 <==> old(free) == []
      ensures p == 0 ==> owner == old(owner) && free == old(free)
      ensures p != 0 ==> 0 < p < |mem| && old(owner)[p] == Free && owner == old(owner)[p := Held]
      ensures p != 0 ==> old(free) == [p] + free
      ensures Valid()
    {
      p := freelist;
      if p != 0 {
        assert p == free[0] && p in free;
        ListPop(mem, freelist, free);
        LoosePage(mem, mem, owner, p, Held, owner[p := Held]);
        assert free == [p] + free[1..];
        freelist, free := mem[p][0], free[1..];
        owner := owner[p := Held];
      }
    }

    /** kfree of a page that kalloc returned and that has not been put to use. */
    method Release(p: int)
      requires Valid() && 0 <= p < |mem| && owner[p] == Held
      modifies this
      ensures owner == old(owner)[p := Free] && SameExcept(old(mem), mem, p)
      ensures SameSpaces(old(mem), old(owner), mem)
      ensures free == [p] + old(free) && SameTables(old(mem), old(owner), mem)
      ensures Valid()
    {
      Kfree(p);
      LoosePage(old(mem), mem, owner, p, Free, owner[p := Free]);
      LooseSame(old(mem), mem, owner, p);
      SameDirs(old(mem), owner, mem, p);
      owner := owner[p := Free];
    }

    /** The page t becomes directory d's table i, without entries. */
    method AddTable(d: int, i: int, t: int)
      requires Valid() && IsDir(d) && 0 <= i < ENTRIES && d < |mem| && !Present(mem[d][i]) && 0 < t < |mem|
      requires owner[t] == Held
      modifies this`mem, this`owner
      ensures |owner| == |mem| == old(|mem|) && owner == old(owner)[t := Table(d, i)] && Leads(mem, owner, d, i, t)
      ensures Tables(mem, d) == old(Tables(mem, d)) + {i}
      ensures SameSpaces(old(mem), old(owner), mem)
      ensures forall p | 0 <= p < |mem| && p != t && p != d :: mem[p] == old(mem)[p]
      ensures Valid()
    {
      var mem' := mem[t := Filled(0)][d := mem[d][i := Pte(t, 7)]];
      NewTable(mem, owner, d, i, t, mem', owner[t := Table(d, i)]);
      TableSame(mem, owner, d, i, t, mem');
      assert d !in free && t !in free;
      ListSame(mem, mem', freelist, free);
      mem, owner := mem', owner[t := Table(d, i)];
    }

    /** walkpgdir: the table for directory entry i, 0 if there is none. */
    method Walkpgdir(d: int, i: int, alloc: bool) returns (t: int)
      requires Valid() && IsDir(d) && 0 <= i < ENTRIES
      modifies this
      ensures t == 0 <==> !Present(old(mem)[d][i]) && (!alloc || old(free) == [])
      ensures t == 0 || !alloc ==> mem == old(mem) && owner == old(owner) && free == old(free)
      ensures |owner| == |mem| == old(|mem|)
      ensures t != 0 ==> 0 < t < |mem| && owner[t] == Table(d, i) && Leads(mem, owner, d, i, t)
      ensures owner == old(owner) || (0 < t < |mem| && old(owner)[t] == Free && owner == old(owner)[t := Table(d, i)])
      ensures |free| == old(|free|) - if t != 0 && i !in old(Tables(mem, d)) then 1 else 0
      ensures Tables(mem, d) == old(Tables(mem, d)) + if t != 0 then {i} else {}
      ensures SameSpaces(old(mem), old(owner), mem)
      ensures KeepsData(old(mem), old(owner), mem, owner)
      ensures Valid()
    {
      hide List, Lists;
      assert EntryOk(mem, owner, d, i);
      if Present(mem[d][i]) {
        return Frame(mem[d][i]);
      }
      if !alloc {
        return 0;
      }
      t := Kalloc();
      if t == 0 {
        return;
      }
      AddTable(d, i, t);
    }

    /** mappages for one page, (i, k) of directory d. A user mapping takes over page pa. */
    method MapPage(d: int, i: int, k: int, pa: int, perm: nat) returns (ok: bool)
      requires Valid() && IsDir(d) && 0 <= i < ENTRIES && 0 <= k < ENTRIES && perm < 4096 && pa >= 0
      requires !Present(Entry(mem, d, i, k))
      requires i < USER ==> pa < |mem| && owner[pa] == Held
      modifies this
      ensures |owner| == |mem| == old(|mem|)
      ensures !ok ==> owner == old(owner) && mem == old(mem) && old(free) == []
      ensures ok ==> Sets(old(mem), old(owner), mem, d, i, k, Pte(pa, perm))
      ensures ok ==>
        forall p | 0 <= p < |mem| && !(i < USER && p == pa) ::
          owner[p] == old(owner)[p] || (old(owner)[p] == Free && owner[p] == Table(d, i))
      ensures ok && i < USER ==> owner[pa] == User(d, i, k)
      ensures ok <==> i in old(Tables(mem, d)) || old(free) != []
      ensures |free| == old(|free|) - if ok && i !in old(Tables(mem, d)) then 1 else 0
      ensures Tables(mem, d) == old(Tables(mem, d)) + if ok then {i} else {}
      ensures KeepsData(old(mem), old(owner), mem, owner)
      ensures Valid()
    {
      hide List, Lists;
      var t := Walkpgdir(d, i, true);
      if t == 0 {
        return false;
      }
      ok := true;
      assert Entry(mem, d, i, k) == mem[t][k];
      ghost var mem1, owner1 := mem, owner;
      Store(d, i, k, t, pa, Pte(pa, perm));
      SetsLater(old(mem), old(owner), mem1, owner1, mem, d, i, k, Pte(pa, perm));
    }

    /** The store into the page table entry. */
    method Store(d: int, i: int, k: int, t: int, ghost pa: int, w: nat)
      requires Valid() && 0 <= i < ENTRIES && 0 <= k < ENTRIES && Present(w) && Frame(w) == pa
      requires 0 <= t < |mem| && owner[t] == Table(d, i) && !Present(mem[t][k])
      requires i < USER ==> pa < |mem| && owner[pa] == Held
      modifies this`mem, this`owner
      ensures |owner| == |mem| == old(|mem|)
      ensures Sets(old(mem), old(owner), mem, d, i, k, w)
      ensures owner == if i < USER then old(owner)[pa := User(d, i, k)] else old(owner)
      ensures SameTables(old(mem), old(owner), mem)
      ensures KeepsData(old(mem), old(owner), mem, owner)
      ensures Valid()
    {
      var mem' := mem[t := mem[t][k := w]];
      EntrySet(mem, owner, d, i, k, t, w, t, mem');
      assert t !in free;
      SameDirs(mem, owner, mem', t);
      ListSame(mem, mem', freelist, free);
      if i < USER {
        NewUser(mem, owner, d, i, k, t, w, mem', owner[pa := User(d, i, k)]);
        owner := owner[pa := User(d, i, k)];
      } else {
        NewKernel(mem, owner, d, i, k, t, w, mem');
      }
      mem := mem';
    }

    /** deallocuvm's step for a mapped page: kfree it and clear its entry. */
    method FreePage(d: int, i: int, k: int, t: int)
      requires Valid() && IsDir(d) && 0 <= i < USER && 0 <= k < ENTRIES
      requires 0 <= t < |mem| && owner[t] == Table(d, i) && Present(mem[t][k])
      modifies this
      ensures |owner| == |mem| == old(|mem|)
      ensures Sets(old(mem), old(owner), mem, d, i, k, 0)
      ensures forall p | 0 <= p < |mem| :: owner[p] == if old(owner)[p] == User(d, i, k) then Free else old(owner)[p]
      ensures KeepsData(old(mem), old(owner), mem, owner)
      ensures Valid()
    {
      var pa := Frame(mem[t][k]);
      assert EntryOk(mem, owner, t, k);
      Kfree(pa);
      assert t !in free;
      ListSame(mem, mem[t := mem[t][k := 0]], freelist, free);
      mem := mem[t := mem[t][k := 0]];
      DropUser(old(mem), owner, d, i, k, t, pa, Free, mem, owner[pa := Free]);
      EntrySet(old(mem), owner, d, i, k, t, 0, pa, mem);
      OnePage(old(mem), owner, pa);
      owner := owner[pa := Free];
    }

    /** One turn of deallocuvm's loop at virtual page v: the next page to look at. */
    method DeallocTurn(d: int, v: nat, ghost hi: nat) returns (next: nat)
      requires Valid() && IsDir(d) && v < hi <= USER * ENTRIES
      modifies this
      ensures |owner| == |mem| == old(|mem|) && next > v
      ensures Shrunk(old(mem), old(owner), mem, owner, d, v, if next < hi then next else hi)
      ensures Valid()
    {
      var i, k := Pdx(v), Ptx(v);
      assert Vpn(i, k) == v;
      var t := Walkpgdir(d, i, false);
      next := v + 1;
      if t == 0 {
        next := (i + 1) * ENTRIES;
        assert forall i', k' | 0 <= i' < ENTRIES && 0 <= k' < ENTRIES && v <= Vpn(i', k') < next :: i' == i;
        NothingOwned(mem, owner, d, i, v, next);
      } else {
        assert Entry(mem, d, i, k) == mem[t][k];
        if Present(mem[t][k]) {
          MineOne(mem, owner, d, i, k);
          FreePage(d, i, k, t);
        } else {
          NothingAt(mem, owner, d, i, k, t);
        }
      }
    }

    method Deallocuvm(d: int, oldsz: nat, newsz: nat) returns (sz: nat)
      requires Valid() && IsDir(d) && oldsz <= KERNBASE
      modifies this
      ensures sz == if newsz < oldsz then newsz else oldsz
      ensures |owner| == |mem| == old(|mem|)
      ensures Shrunk(old(mem), old(owner), mem, owner, d, Pages(newsz), Pages(oldsz))
      ensures Valid()
    {
      if newsz >= oldsz {
        return oldsz;
      }
      ghost var lo, hi := Pages(newsz), Pages(oldsz);
      PageStarts(oldsz);
      PagesGrow(newsz, oldsz);
      hide Pages, PageStart;
      var v := Pages(newsz);
      while PageStart(v) < oldsz
        invariant |owner| == |mem| == old(|mem|) && lo <= v
        invariant Shrunk(old(mem), old(owner), mem, owner, d, lo, if v < hi then v else hi)
        invariant Valid()
      {
        ghost var mem1, owner1 := mem, owner;
        var next := DeallocTurn(d, v, hi);
        ShrunkStep(old(mem), old(owner), mem1, owner1, mem, owner, d, lo, v, if next < hi then next else hi);
        v := next;
      }
      return newsz;
    }

    /** kalloc, and memset or memmove into the page. */
    method TakePage(content: Page) returns (p: int)
      requires Valid()
      modifies this
      ensures |owner| == |mem| == old(|mem|)
      ensures p == 0 ==> mem == old(mem) && owner == old(owner)
      ensures p != 0 ==>
        0 < p < |mem| && old(owner)[p] == Free && owner == old(owner)[p := Held] && mem == old(mem)[p := content]
      ensures p == 0 <==> old(free) == []
      ensures |free| == old(|free|) - if p != 0 then 1 else 0
      ensures SameTables(old(mem), old(owner), mem)
      ensures SameSpaces(old(mem), old(owner), mem)
      ensures KeepsData(old(mem), old(owner), mem, owner)
      ensures Valid()
    {
      p := Kalloc();
      if p != 0 {
        LoosePage(mem, mem[p := content], owner, p, Held, owner);
        LooseSame(mem, mem[p := content], owner, p);
        assert p !in free;
        SameDirs(mem, owner, mem[p := content], p);
        ListSame(mem, mem[p := content], freelist, free);
        mem := mem[p := content];
      }
    }

    /** Maps a page with the given contents at virtual page v; p is the page taken, if any. */
    method GivePage(d: int, v: nat, content: Page, perm: nat) returns (p: int, ok: bool)
      requires Valid() && IsDir(d) && v < USER * ENTRIES && perm < 4096 && Unmapped(mem, d, v, v + 1)
      modifies this
      ensures |owner| == |mem| == old(|mem|)
      ensures p == 0 ==> !ok && mem == old(mem) && owner == old(owner)
      ensures p != 0 && !ok ==>
        && 0 < p < |mem| && old(owner)[p] == Free && owner == old(owner)[p := Held]
        && SameSpaces(old(mem), old(owner), mem)
      ensures ok ==>
        0 < p < |mem| && mem[p] == content && Sets(old(mem), old(owner), mem, d, Pdx(v), Ptx(v), Pte(p, perm))
      ensures ok ==> Gains(old(owner), owner, d, v, v + 1) && old(owner)[p] == Free
      ensures ok <==> old(|free|) >= 1 + old(NoTable(d, Pdx(v)))
      ensures ok ==>
        |free| == old(|free|) - 1 - old(NoTable(d, Pdx(v))) && Tables(mem, d) == old(Tables(mem, d)) + {Pdx(v)}
      ensures KeepsData(old(mem), old(owner), mem, owner)
      ensures Valid()
    {
      ok := false;
      p := TakePage(content);
      if p == 0 {
        return;
      }
      ghost var mem1, owner1 := mem, owner;
      var i, k := Pdx(v), Ptx(v);
      assert !Present(Entry(mem, d, i, k)) by {
        assert Entry(mem, d, i, k) == Entry(old(mem), d, i, k) && Vpn(i, k) == v;
      }
      ok := MapPage(d, i, k, p, perm);
      if ok {
        SetsLater(old(mem), old(owner), mem1, owner1, mem, d, i, k, Pte(p, perm));
      }
    }

    /** One turn of allocuvm's loop at virtual page v. */
    method AllocTurn(d: int, v: nat) returns (p: int, ok: bool)
      requires Valid() && IsDir(d) && v < USER * ENTRIES && Unmapped(mem, d, v, v + 1)
      modifies this
      ensures |owner| == |mem| == old(|mem|)
      ensures p == 0 ==> !ok && mem == old(mem) && owner == old(owner)
      ensures p != 0 && !ok ==> 0 < p < |mem| && old(owner)[p] == Free && owner == old(owner)[p := Held]
      ensures !ok ==> SameSpaces(old(mem), old(owner), mem) && KeepsData(old(mem), old(owner), mem, owner)
      ensures ok <==> old(|free|) >= 1 + old(NoTable(d, Pdx(v)))
      ensures ok ==>
        |free| == old(|free|) - 1 - old(NoTable(d, Pdx(v))) && Tables(mem, d) == old(Tables(mem, d)) + {Pdx(v)}
      ensures ok ==> Grown(old(mem), old(owner), mem, owner, d, v, v + 1)
      ensures Valid()
    {
      p, ok := GivePage(d, v, Filled(0), PTE_W + PTE_U);
    }

    /** allocuvm's way out: unmap what has been mapped and free the page left over. */
    method GiveUp(d: int, oldsz: nat, newsz: nat, p: int, ghost mem0: seq<Page>, ghost owner0: seq<Owner>)
      requires Valid() && IsDir(d) && newsz <= KERNBASE && |owner0| == |mem0| == |mem|
      requires if p == 0 then mem == mem0 && owner == owner0 else
                 && 0 < p < |mem| && owner0[p] == Free && owner == owner0[p := Held]
                 && SameSpaces(mem0, owner0, mem) && KeepsData(mem0, owner0, mem, owner)
      modifies this
      ensures |owner| == |mem| == old(|mem|)
      ensures Shrunk(mem0, owner0, mem, owner, d, Pages(oldsz), Pages(newsz))
      ensures Valid()
    {
      var sz := Deallocuvm(d, newsz, oldsz);
      if p != 0 {
        ghost var memB, ownerB := mem, owner;
        Release(p);
        ShrunkHolding(mem0, owner0, old(mem), old(owner), memB, ownerB, mem, owner, d, Pages(oldsz), Pages(newsz), p);
      }
    }

    /** The body of allocuvm's loop, in terms of the whole. */
    method AllocStep(d: int, v: nat, oldsz: nat, newsz: nat, ghost mem0: seq<Page>, ghost owner0: seq<Owner>,
                     ghost free0: nat)
      returns (ok: bool)
      requires Valid() && |owner0| == |mem0| == |mem| && 0 <= d < |mem| && owner0[d] == Dir
      requires newsz < KERNBASE && Pages(oldsz) <= v < Pages(newsz) && Unmapped(mem0, d, Pages(oldsz), Pages(newsz))
      requires NoneMine(owner0, d, Pages(oldsz), Pages(newsz))
      requires Growing(mem0, owner0, free0, mem, owner, |free|, d, Pages(oldsz), v)
      modifies this
      ensures |owner| == |mem| == old(|mem|)
      ensures ok ==> Growing(mem0, owner0, free0, mem, owner, |free|, d, Pages(oldsz), v + 1)
      ensures !ok ==>
        SameMaps(mem0, owner0, mem) && Gains(owner0, owner, d, 0, 0) && KeepsData(mem0, owner0, mem, owner)
      ensures !ok ==> free0 < Cost(mem0, d, Pages(oldsz), Pages(newsz))
      ensures Valid()
    {
      ghost var mem1, owner1, free1, lo, hi := mem, owner, |free|, Pages(oldsz), Pages(newsz);
      var p;
      p, ok := AllocTurn(d, v);
      if !ok {
        GrewShort(mem0, owner0, free0, mem1, owner1, free1, d, lo, v, hi);
        GiveUp(d, oldsz, newsz, p, mem1, owner1);
        GrownShrunk(mem0, owner0, mem1, owner1, mem, owner, d, lo, v, hi);
      } else {
        GrewStep(mem0, owner0, free0, mem1, owner1, free1, mem, owner, |free|, d, lo, v);
      }
    }

    /** allocuvm's loop. */
    method AllocLoop(d: int, oldsz: nat, newsz: nat) returns (ok: bool)
      requires Valid() && IsDir(d) && oldsz <= newsz < KERNBASE && Unmapped(mem, d, Pages(oldsz), Pages(newsz))
      modifies this
      ensures |owner| == |mem| == old(|mem|)
      ensures ok <==> old(|free|) >= old(Cost(mem, d, Pages(oldsz), Pages(newsz)))
      ensures ok ==> Grown(old(mem), old(owner), mem, owner, d, Pages(oldsz), Pages(newsz))
      ensures !ok ==>
        && SameMaps(old(mem), old(owner), mem) && Gains(old(owner), owner, d, 0, 0)
        && KeepsData(old(mem), old(owner), mem, owner)
      ensures Valid()
    {
      hide Growing, Took, Span, Tables, Grown, Gains, KeepsData, SameMaps, Unmapped, Cost, NoneMine, Pages, PageStart,
        Owned, List,
        Lists, Mine, Loose, EntryOk, PageOk;
      PageStarts(newsz);
      PagesGrow(oldsz, newsz);
      ghost var lo, hi := Pages(oldsz), Pages(newsz);
      GrowStart(mem, owner, |free|, d, lo, hi);
      var v := Pages(oldsz);
      while PageStart(v) < newsz
        invariant |owner| == |mem| == old(|mem|) && lo <= v <= hi
        invariant Growing(old(mem), old(owner), old(|free|), mem, owner, |free|, d, lo, v)
        invariant Valid()
        decreases hi - v
      {
        ok := AllocStep(d, v, oldsz, newsz, old(mem), old(owner), old(|free|));
        if !ok {
          return;
        }
        v := v + 1;
      }
      Grew(old(mem), old(owner), old(|free|), mem, owner, |free|, d, lo, hi);
      ok := true;
    }

    /** The range is mapped exactly if there are enough free pages. Otherwise d may have gained
        tables, but no mapping of any directory has changed. */
    method Allocuvm(d: int, oldsz: nat, newsz: nat) returns (sz: nat)
      requires Valid() && IsDir(d) && (newsz < KERNBASE ==> Unmapped(mem, d, Pages(oldsz), Pages(newsz)))
      modifies this
      ensures |owner| == |mem| == old(|mem|)
      ensures newsz >= KERNBASE ==> sz == 0
      ensures newsz < oldsz && newsz < KERNBASE ==> sz == oldsz
      ensures newsz < oldsz || newsz >= KERNBASE ==> mem == old(mem) && owner == old(owner)
      ensures oldsz <= newsz < KERNBASE ==>
        if old(|free|) >= old(Cost(mem, d, Pages(oldsz), Pages(newsz))) then
          sz == newsz && Grown(old(mem), old(owner), mem, owner, d, Pages(oldsz), Pages(newsz))
        else
          && sz == 0 && SameMaps(old(mem), old(owner), mem) && Gains(old(owner), owner, d, 0, 0)
          && KeepsData(old(mem), old(owner), mem, owner)
      ensures Valid()
    {
      hide Grown, Gains, KeepsData, SameMaps, Unmapped, Cost;
      if newsz >= KERNBASE {
        return 0;
      }
      if newsz < oldsz {
        return oldsz;
      }
      var ok := AllocLoop(d, oldsz, newsz);
      return if ok then newsz else 0;
    }

    /** freevm's loop over the directory, which is out of use. */
    method FreeTables(d: int, ghost owner1: seq<Owner>)
      requires |owner1| == |mem| && 0 <= d < |mem| && owner1[d] == Dir && Owned(mem, owner1)
      requires Torn(owner1, owner, d, 0)
      requires Valid()
      modifies this
      ensures |owner| == |mem| == old(|mem|)
      ensures Torn(owner1, owner, d, ENTRIES)
      ensures SameSpaces(old(mem), old(owner), mem)
      ensures KeepsData(old(mem), owner1, mem, owner)
      ensures Valid()
    {
      var i := 0;
      while i < ENTRIES
        invariant 0 <= i <= ENTRIES && |owner| == |mem| == old(|mem|)
        invariant Torn(owner1, owner, d, i) && mem[d] == old(mem)[d]
        invariant SameSpaces(old(mem), old(owner), mem)
        invariant KeepsData(old(mem), owner1, mem, owner)
        invariant Valid()
      {
        assert EntryOk(old(mem), owner1, d, i);
        TornStep(old(mem), owner1, owner, if Present(mem[d][i]) then owner[Frame(mem[d][i]) := Free] else owner, d, i);
        if Present(mem[d][i]) {
          Release(Frame(mem[d][i]));
        }
        i := i + 1;
      }
    }

    /** Frees exactly what belongs to d. */
    method Freevm(d: int)
      requires Valid() && IsDir(d)
      modifies this
      ensures |owner| == |mem| == old(|mem|)
      ensures forall p | 0 <= p < |mem| :: owner[p] == if Belongs(old(owner), p, d) then Free else old(owner)[p]
      ensures Outside(old(mem), old(owner), mem, d, 0, ALL)
      ensures KeepsData(old(mem), old(owner), mem, owner)
      ensures Valid()
    {
      var sz := Deallocuvm(d, KERNBASE, 0);
      AllUnmapped(old(mem), old(owner), d, owner);
      ghost var mem1, owner1 := mem, owner;
      Detached(mem, owner, d, Detach(owner, d));
      owner := Detach(owner, d);
      FreeTables(d, owner1);
      TornAll(mem1, owner1, owner, d);
      Release(d);
    }

    /** The body of mappages' loop, at page n of a region of the kernel half. */
    method MapStep(d: int, r: Region, n: nat, ghost mem0: seq<Page>, ghost owner0: seq<Owner>, ghost free0: nat)
      returns (ok: bool)
      requires Valid() && |owner0| == |mem0| == |mem| && 0 <= d < |mem| && owner0[d] == Dir
      requires r.Fits() && n < r.pages && Unmapped(mem0, d, r.first, r.first + r.pages)
      requires Mapping(mem0, owner0, free0, mem, owner, |free|, d, r, n)
      modifies this
      ensures |owner| == |mem| == old(|mem|)
      ensures Mapping(mem0, owner0, free0, mem, owner, |free|, d, r, if ok then n + 1 else n)
      ensures !ok ==> free0 < RegionCost(mem0, d, r)
      ensures Valid()
    {
      hide Mapping, RegionCost, Linear, Outside, Gains, KeepsData, Took, Tables, Span, Unmapped, Entry, Sets, List,
        Lists;
      MappingIs(mem0, owner0, free0, mem, owner, |free|, d, r, n);
      ghost var mem1, owner1, free1 := mem, owner, |free|;
      var v := r.first + n;
      var i, k := Pdx(v), Ptx(v);
      ok := MapPage(d, i, k, r.pa + n, r.perm);
      if ok {
        MappingStep(mem0, owner0, free0, mem1, owner1, free1, mem, owner, |free|, d, r, n);
      } else {
        MappingShort(mem0, owner0, free0, mem1, owner1, free1, d, r, n);
      }
    }

    /** mappages for a region of the kernel half. */
    method Mappages(d: int, r: Region) returns (ok: bool)
      requires Valid() && IsDir(d) && r.Fits() && Unmapped(mem, d, r.first, r.first + r.pages)
      modifies this
      ensures |owner| == |mem| == old(|mem|)
      ensures ok ==> Linear(mem, d, r, r.pages)
      ensures ok <==> old(|free|) >= old(RegionCost(mem, d, r))
      ensures ok ==> |free| == old(|free|) - old(RegionCost(mem, d, r))
      ensures ok ==> Tables(mem, d) == old(Tables(mem, d)) + Span(r.first, r.first + r.pages)
      ensures Outside(old(mem), old(owner), mem, d, r.first, r.first + r.pages)
      ensures Gains(old(owner), owner, d, 0, 0)
      ensures KeepsData(old(mem), old(owner), mem, owner)
      ensures Valid()
    {
      hide Mapping, RegionCost, Unmapped, List, Lists, Linear, Outside, Gains, KeepsData, Tables, Span;
      MappingStart(mem, owner, |free|, d, r);
      var n := 0;
      ok := true;
      while n < r.pages
        invariant 0 <= n <= r.pages && |owner| == |mem| == old(|mem|) && ok
        invariant Mapping(old(mem), old(owner), old(|free|), mem, owner, |free|, d, r, n)
        invariant Valid()
      {
        ok := MapStep(d, r, n, old(mem), old(owner), old(|free|));
        if !ok {
          break;
        }
        n := n + 1;
      }
      MappingEnd(old(mem), old(owner), old(|free|), mem, owner, |free|, d, r, n);
    }

    /** A page for a directory, all zero. */
    method NewDirectory() returns (d: int)
      requires Valid()
      modifies this
      ensures |owner| == |mem| == old(|mem|)
      ensures d == 0 ==> owner == old(owner)
      ensures d != 0 ==>
        0 < d < |mem| && old(owner)[d] == Free && owner == old(owner)[d := Dir] && Unmapped(mem, d, 0, ALL)
      ensures d == 0 <==> old(free) == []
      ensures d != 0 ==> |free| == old(|free|) - 1 && mem[d] == Filled(0)
      ensures SameSpaces(old(mem), old(owner), mem)
      ensures KeepsData(old(mem), old(owner), mem, owner)
      ensures Valid()
    {
      d := TakePage(Filled(0));
      if d != 0 {
        NewDir(mem, owner, d, mem, owner[d := Dir]);
        owner := owner[d := Dir];
        NoEntries(mem, d);
      }
    }

    /** The body of setupkvm's loop, at region j. */
    method RegionStep(d: int, kmap: seq<Region>, j: nat, ghost mem0: seq<Page>, ghost owner0: seq<Owner>,
                      ghost free0: nat)
      returns (ok: bool)
      requires Valid() && Sorted(kmap) && j < |kmap|
      requires Placing(mem0, owner0, free0, mem, owner, |free|, d, kmap, j) && owner0[d] == Dir
      modifies this
      ensures |owner| == |mem| == old(|mem|)
      ensures ok ==> Placing(mem0, owner0, free0, mem, owner, |free|, d, kmap, j + 1)
      ensures !ok ==>
        Outside(mem0, owner0, mem, d, 0, ALL) && Gains(owner0, owner, d, 0, 0) && KeepsData(mem0, owner0, mem, owner)
      ensures !ok ==> free0 < |Spans(kmap, |kmap|) - Tables(mem0, d)|
      ensures Valid()
    {
      hide Placing, RegionCost, Unmapped, Linear, Outside, Gains, KeepsData, Took, Tables, Span, Spans, List, Lists;
      ghost var mem1, owner1, free1 := mem, owner, |free|;
      PlacingIs(mem0, owner0, free0, mem, owner, |free|, d, kmap, j);
      ok := Mappages(d, kmap[j]);
      PlacingFrame(mem0, owner0, free0, mem1, owner1, free1, mem, owner, d, kmap, j);
      if ok {
        PlacingStep(mem0, owner0, free0, mem1, owner1, free1, mem, owner, |free|, d, kmap, j);
      } else {
        PlacingShort(mem0, owner0, free0, mem1, owner1, free1, d, kmap, j);
      }
    }

    /** setupkvm's loop over the regions. */
    method MapRegions(d: int, kmap: seq<Region>) returns (ok: bool)
      requires Valid() && IsDir(d) && Sorted(kmap) && Unmapped(mem, d, 0, ALL)
      modifies this
      ensures |owner| == |mem| == old(|mem|)
      ensures ok ==> Placed(mem, d, kmap, |kmap|)
      ensures ok <==> old(|free|) >= |Spans(kmap, |kmap|) - old(Tables(mem, d))|
      ensures ok ==> |free| == old(|free|) - |Spans(kmap, |kmap|) - old(Tables(mem, d))|
      ensures ok ==> Tables(mem, d) == old(Tables(mem, d)) + Spans(kmap, |kmap|)
      ensures Outside(old(mem), old(owner), mem, d, 0, ALL)
      ensures Gains(old(owner), owner, d, 0, 0)
      ensures KeepsData(old(mem), old(owner), mem, owner)
      ensures Valid()
    {
      hide Placing, Placed, Unmapped, Linear, Outside, Gains, KeepsData, Took, Tables, Span, Spans, List, Lists;
      PlacingStart(mem, owner, |free|, d, kmap);
      var j := 0;
      while j < |kmap|
        invariant 0 <= j <= |kmap| && |owner| == |mem| == old(|mem|)
        invariant Placing(old(mem), old(owner), old(|free|), mem, owner, |free|, d, kmap, j)
        invariant Valid()
      {
        ok := RegionStep(d, kmap, j, old(mem), old(owner), old(|free|));
        if !ok {
          return;
        }
        j := j + 1;
      }
      PlacingEnd(old(mem), old(owner), old(|free|), mem, owner, |free|, d, kmap);
      ok := true;
    }

    /** The kernel's regions in a new directory. */
    method MapKernel(d: int, data: nat) returns (ok: bool)
      requires Valid() && IsDir(d) && 0x100 < data < 0xE000 && Unmapped(mem, d, 0, ALL) && d < |mem|
      requires mem[d] == Filled(0)
      modifies this
      ensures |owner| == |mem| == old(|mem|)
      ensures ok ==> KernelSpace(mem, d, 0, data)
      ensures ok <==> old(|free|) >= KVMPAGES - 1
      ensures ok ==> |free| == old(|free|) - (KVMPAGES - 1) && NoUserTables(mem, d)
      ensures Outside(old(mem), old(owner), mem, d, 0, ALL)
      ensures Gains(old(owner), owner, d, 0, 0)
      ensures KeepsData(old(mem), old(owner), mem, owner)
      ensures Valid()
    {
      hide Tables, Spans, Placed, KernelSpace, Unmapped, Outside, Gains, KeepsData, NoUserTables, List, Lists, Kmap;
      ok := MapRegions(d, Kmap(data));
      if ok { KmapMeans(mem, d, data); }
      KmapCost(old(mem), mem, d, data);
    }

    /** A directory with the kernel's mappings and nothing else; without memory for it every
        page has its old owner. */
    method Setupkvm(data: nat) returns (d: int)
      requires Valid() && 0x100 < data < 0xE000
      modifies this
      ensures |owner| == |mem| == old(|mem|)
      ensures d == 0 ==> owner == old(owner)
      ensures d != 0 ==>
        0 < d < |mem| && old(owner)[d] == Free && owner[d] == Dir && Gains(old(owner)[d := Dir], owner, d, 0, 0)
      ensures d != 0 ==> KernelSpace(mem, d, 0, data)
      ensures d != 0 <==> old(|free|) >= KVMPAGES
      ensures d != 0 ==> |free| == old(|free|) - KVMPAGES && NoUserTables(mem, d)
      ensures SameSpaces(old(mem), old(owner), mem)
      ensures KeepsData(old(mem), old(owner), mem, owner)
      ensures Valid()
    {
      hide KernelSpace, Unmapped, NoUserTables, List, Lists;
      d := NewDirectory();
      if d == 0 {
        return;
      }
      var ok := MapKernel(d, data);
      if !ok {
        ghost var owner2 := owner;
        Freevm(d);
        BuiltAndTorn(old(mem), old(owner), owner2, owner, d, 0, 0);
        d := 0;
      }
    }

    /** One turn of copyuvm's loop at virtual page v. */
    method CopyTurn(d: int, c: int, v: nat) returns (ok: bool)
      requires Valid() && IsDir(d) && IsDir(c) && d != c && v < USER * ENTRIES
      requires Present(Entry(mem, d, Pdx(v), Ptx(v))) && Unmapped(mem, c, v, v + 1)
      modifies this
      ensures |owner| == |mem| == old(|mem|)
      ensures !ok ==> owner == old(owner) && SameSpaces(old(mem), old(owner), mem)
      ensures ok ==> Outside(old(mem), old(owner), mem, c, v, v + 1) && Gains(old(owner), owner, c, v, v + 1)
      ensures ok ==> Copy(mem, Entry(mem, d, Pdx(v), Ptx(v)), Entry(mem, c, Pdx(v), Ptx(v)))
      ensures ok <==> old(|free|) >= 1 + old(NoTable(c, Pdx(v)))
      ensures ok ==>
        |free| == old(|free|) - 1 - old(NoTable(c, Pdx(v))) && Tables(mem, c) == old(Tables(mem, c)) + {Pdx(v)}
      ensures KeepsData(old(mem), old(owner), mem, owner)
      ensures Valid()
    {
      hide List, Lists, Tables;
      var i, k := Pdx(v), Ptx(v);
      assert Vpn(i, k) == v;
      UserPage(mem, owner, d, i, k);
      var t := Walkpgdir(d, i, false);
      var pte := mem[t][k];
      var p: int;
      p, ok := GivePage(c, v, mem[Frame(pte)], Flags(pte));
      if ok {
        assert Entry(mem, d, i, k) == pte && Entry(mem, c, i, k) == Pte(p, Flags(pte));
      } else if p != 0 {
        Release(p);
      }
    }

    /** The body of copyuvm's loop, in terms of the whole. */
    method CopyStep(d: int, c: int, v: nat, sz: nat, ghost mem0: seq<Page>, ghost owner0: seq<Owner>, ghost free0: nat)
      returns (ok: bool)
      requires Valid() && d != c && v < Pages(sz) && sz <= KERNBASE
      requires Copying(mem0, owner0, free0, mem, owner, |free|, d, c, v) && owner0[d] == owner0[c] == Dir
      requires Mapped(mem0, d, Pages(sz)) && Unmapped(mem0, c, 0, USER * ENTRIES)
      modifies this
      ensures |owner| == |mem| == old(|mem|)
      ensures ok ==> Copying(mem0, owner0, free0, mem, owner, |free|, d, c, v + 1)
      ensures !ok ==> free0 < Cost(mem0, c, 0, Pages(sz)) && Outside(mem0, owner0, mem, c, 0, v)
      ensures !ok ==> Gains(owner0, owner, c, 0, v) && KeepsData(mem0, owner0, mem, owner)
      ensures Valid()
    {
      hide Copying, Copy, Entry, Cost, Mapped, Unmapped, Outside, Gains, KeepsData, SameSpaces, Tables, Span, List,
        Lists;
      ghost var mem1, owner1, free1 := mem, owner, |free|;
      PageStarts(sz);
      CopyingIs(mem0, owner0, free0, mem, owner, |free|, d, c, v, Pages(sz));
      ok := CopyTurn(d, c, v);
      if ok {
        CopyingStep(mem0, owner0, free0, mem1, owner1, free1, mem, owner, |free|, d, c, v);
      } else {
        CopyingShort(mem0, owner0, free0, mem1, owner1, free1, mem, owner, d, c, v, Pages(sz));
      }
    }

    /** copyuvm's loop. */
    method CopyPages(d: int, c: int, sz: nat) returns (ok: bool)
      requires Valid() && IsDir(d) && IsDir(c) && d != c && sz <= KERNBASE && Mapped(mem, d, Pages(sz))
      requires Unmapped(mem, c, 0, USER * ENTRIES)
      modifies this
      ensures |owner| == |mem| == old(|mem|)
      ensures ok ==> Copied(mem, d, c, Pages(sz))
      ensures ok <==> old(|free|) >= old(Cost(mem, c, 0, Pages(sz)))
      ensures Outside(old(mem), old(owner), mem, c, 0, Pages(sz))
      ensures Gains(old(owner), owner, c, 0, Pages(sz))
      ensures KeepsData(old(mem), old(owner), mem, owner)
      ensures Valid()
    {
      hide Copying, Copied, Cost, Mapped, Unmapped, Outside, Gains, KeepsData, Tables, Span, List, Lists, Pages,
        PageStart;
      PageStarts(sz);
      CopyingStart(mem, owner, |free|, d, c);
      var v := 0;
      while PageStart(v) < sz
        invariant 0 <= v <= Pages(sz) && |owner| == |mem| == old(|mem|)
        invariant Copying(old(mem), old(owner), old(|free|), mem, owner, |free|, d, c, v)
        invariant Valid()
        decreases Pages(sz) - v
      {
        ok := CopyStep(d, c, v, sz, old(mem), old(owner), old(|free|));
        if !ok {
          CopyingMore(old(mem), old(owner), mem, owner, c, v, Pages(sz));
          return;
        }
        v := v + 1;
      }
      CopyingEnd(old(mem), old(owner), old(|free|), mem, owner, |free|, d, c, v);
      ok := true;
    }

    /** copyuvm: a copy of d's first sz bytes on pages of its own, or 0 and every page has its
        old owner. */
    method Copyuvm(d: int, sz: nat, data: nat) returns (c: int)
      requires Valid() && IsDir(d) && sz <= KERNBASE && 0x100 < data < 0xE000 && Mapped(mem, d, Pages(sz))
      modifies this
      ensures |owner| == |mem| == old(|mem|)
      ensures c == 0 ==> owner == old(owner)
      ensures c != 0 ==>
        0 < c < |mem| && old(owner)[c] == Free && owner[c] == Dir && Gains(old(owner)[c := Dir], owner, c, 0, Pages(sz))
      ensures c != 0 ==> Copied(mem, d, c, Pages(sz)) && KernelSpace(mem, c, Pages(sz), data)
      ensures c != 0 <==> old(|free|) >= KVMPAGES + Pages(sz) + (Pages(sz) + ENTRIES - 1) / ENTRIES
      ensures SameSpaces(old(mem), old(owner), mem)
      ensures KeepsData(old(mem), old(owner), mem, owner)
      ensures Valid()
    {
      hide Cost, NoUserTables, Copied, KernelSpace, List, Lists;
      c := Setupkvm(data);
      if c == 0 {
        return;
      }
      ghost var mem1, owner1 := mem, owner;
      assert forall i, k {:trigger Entry(mem, d, i, k)} | 0 <= i < ENTRIES && 0 <= k < ENTRIES ::
        Entry(mem, d, i, k) == Entry(old(mem), d, i, k);
      UserCost(mem, c, Pages(sz));
      NoUserPages(mem, c, data);
      var ok := CopyPages(d, c, sz);
      if !ok {
        ghost var owner2 := owner;
        Freevm(c);
        BuiltAndTorn(old(mem), old(owner), owner2, owner, c, 0, Pages(sz));
        c := 0;
      } else {
        StaysKernel(mem1, owner1, mem, c, Pages(sz), data);
      }
    }
  }
}
