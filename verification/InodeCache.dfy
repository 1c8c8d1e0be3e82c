/** fs.c: the inode cache, every interleaving of iget, idup, ilock, iunlock, iupdate, iput and
    ialloc. A step is a stretch under icache.lock, one access to the inode's disk block, or one
    change of fields under the entry's sleep-lock. The disk is what the buffer cache shows. */
module InodeCache {
  import opened Basics
  import opened FsSpec

  /** A cache entry; lock is the reference whose user holds the sleep-lock, or -1. */
  datatype Entry = Entry(inum: int, ref: int, valid: bool, copy: Dinode, lock: int)

  /** What the user of a reference is doing with it. */
  datatype Phase =
    | Idle
    | Locking | Owner | Dirty
    | PutCheck | PutTrunc | PutType | PutUpdate | PutInvalid
    | PutRelease(freed: bool) | PutDrop(freed: bool)

  /** A reference to entry e: a pointer some process holds. */
  datatype Ref = Ref(e: int, at: Phase)

  /** allocs: calls of ialloc that have marked an inode on the disk but not called iget yet. */
  datatype State = State(entries: seq<Entry>, disk: seq<Dinode>, refs: map<int, Ref>, allocs: map<int, int>)

  datatype Action =
    | Get(t: int, inum: int)
    | Dup(t: int, from: int)
    | AllocWrite(t: int, inum: int, kind: int)
    | AllocGet(t: int)
    | Lock(t: int)
    | Load(t: int)
    | Edit(t: int, copy: Dinode)
    | Update(t: int)
    | Unlock(t: int)
    | PutLock(t: int)
    | Check(t: int)
    | Trunc(t: int)
    | ClearType(t: int)
    | FreeUpdate(t: int)
    | Invalidate(t: int)
    | PutUnlock(t: int)
    | Drop(t: int)

  // ---- iget's scan ----

  ghost predicate Cached(entries: seq<Entry>, inum: int, e: int)
  {
    0 <= e < |entries| && entries[e].ref > 0 && entries[e].inum == inum
  }

  ghost predicate FirstEmpty(entries: seq<Entry>, e: int)
  {
    0 <= e < |entries| && entries[e].ref == 0 && forall i | 0 <= i < e :: entries[i].ref != 0
  }

  /** The entry iget uses: the cached one, or else the first empty one. */
  ghost predicate Chosen(entries: seq<Entry>, inum: int, e: int)
  {
    || Cached(entries, inum, e)
    || ((forall i | 0 <= i < |entries| :: !Cached(entries, inum, i)) && FirstEmpty(entries, e))
  }

  method Scan(entries: seq<Entry>, inum: int) returns (e: int)
    ensures e >= 0 ==> Chosen(entries, inum, e)
    ensures e < 0 ==> forall i | 0 <= i < |entries| :: !Cached(entries, inum, i) && entries[i].ref != 0
  {
    var empty := -1;
    e := 0;
    while e < |entries|
      invariant 0 <= e <= |entries|
      invariant forall i | 0 <= i < e :: !Cached(entries, inum, i)
      invariant empty < 0 ==> empty == -1 && forall i | 0 <= i < e :: entries[i].ref != 0
      invariant empty >= 0 ==> empty < e && FirstEmpty(entries, empty)
    {
      if entries[e].ref > 0 && entries[e].inum == inum {
        return;
      }
      if empty == -1 && entries[e].ref == 0 {
        empty := e;
      }
      e := e + 1;
    }
    e := empty;
  }

  /** The entry after iget has taken it. */
  function Taken(x: Entry, inum: int): Entry
  {
    if x.ref > 0 then x.(ref := x.ref + 1) else Entry(inum, 1, false, x.copy, x.lock)
  }

  // ---- steps ----

  ghost predicate Has(s: State, t: int, at: Phase)
  {
    t in s.refs && s.refs[t].at == at && 0 <= s.refs[t].e < |s.entries| && 0 <= s.entries[s.refs[t].e].inum < |s.disk|
  }

  function Of(s: State, t: int): Entry
    requires t in s.refs && 0 <= s.refs[t].e < |s.entries|
  {
    s.entries[s.refs[t].e]
  }

  /** Reference t moves to phase `at` and its entry becomes x. */
  function Move(s: State, t: int, at: Phase, x: Entry): State
    requires t in s.refs && 0 <= s.refs[t].e < |s.entries|
  {
    s.(entries := s.entries[s.refs[t].e := x], refs := s.refs[t := Ref(s.refs[t].e, at)])
  }

  function Write(s: State, inum: int, d: Dinode): State
    requires 0 <= inum < |s.disk|
  {
    s.(disk := s.disk[inum := d])
  }

  /** iget's entry for a new reference t. */
  function Add(s: State, t: int, inum: int, e: int): State
    requires 0 <= e < |s.entries|
  {
    s.(entries := s.entries[e := Taken(s.entries[e], inum)], refs := s.refs[t := Ref(e, Idle)])
  }

  ghost predicate Unused(s: State, t: int)
  {
    t >= 0 && t !in s.refs && t !in s.allocs
  }

  /** ilock is about to read a free inode: it panics. */
  ghost predicate Panics(s: State, t: int)
  {
    Has(s, t, Locking) && !Of(s, t).valid && s.disk[Of(s, t).inum].kind == 0
  }

  function NoAddrs(): (a: seq<nat>)
    ensures |a| == NDIRECT + 1
  {
    seq(NDIRECT + 1, j => 0)
  }

  /** A panic stops the system. */
  ghost predicate Next(s: State, a: Action, s': State)
  {
    match a
    case Get(t, inum) =>
      && Unused(s, t) && 0 <= inum < |s.disk|
      && exists e :: Chosen(s.entries, inum, e) && s' == Add(s, t, inum, e)
    case Dup(t, from) =>
      && Unused(s, t) && Has(s, from, Idle)
      && s' == Add(s, t, Of(s, from).inum, s.refs[from].e)
    case AllocWrite(t, inum, kind) =>
      && Unused(s, t) && 1 <= inum < |s.disk| && s.disk[inum].kind == 0 && kind != 0
      && s' == Write(s, inum, Inode(kind, 0, 0, 0, 0, NoAddrs(), 0)).(allocs := s.allocs[t := inum])
    case AllocGet(t) =>
      && t in s.allocs
      && exists e :: Chosen(s.entries, s.allocs[t], e) && s' == Add(s, t, s.allocs[t], e).(allocs := s.allocs - {t})
    case Lock(t) =>
      Has(s, t, Idle) && Of(s, t).lock == -1 && s' == Move(s, t, Locking, Of(s, t).(lock := t))
    case Load(t) =>
      && Has(s, t, Locking) && !Panics(s, t)
      && var x := Of(s, t);
         s' == Move(s, t, Owner, if x.valid then x else x.(copy := s.disk[x.inum], valid := true))
    case Edit(t, copy) =>
      && (Has(s, t, Owner) || Has(s, t, Dirty)) && copy.kind == Of(s, t).copy.kind
      && s' == Move(s, t, Dirty, Of(s, t).(copy := copy))
    case Update(t) =>
      && (Has(s, t, Owner) || Has(s, t, Dirty))
      && s' == Write(Move(s, t, Owner, Of(s, t)), Of(s, t).inum, Of(s, t).copy)
    case Unlock(t) =>
      Has(s, t, Owner) && s' == Move(s, t, Idle, Of(s, t).(lock := -1))
    case PutLock(t) =>
      Has(s, t, Idle) && Of(s, t).lock == -1 && s' == Move(s, t, PutCheck, Of(s, t).(lock := t))
    case Check(t) =>
      && Has(s, t, PutCheck)
      && var x := Of(s, t);
         s' == Move(s, t, if x.valid && x.copy.nlink == 0 && x.ref == 1 then PutTrunc else PutRelease(false), x)
    case Trunc(t) =>
      && Has(s, t, PutTrunc)
      && var c := Of(s, t).copy.(size := 0, addrs := NoAddrs());
         s' == Write(Move(s, t, PutType, Of(s, t).(copy := c)), Of(s, t).inum, c)
    case ClearType(t) =>
      Has(s, t, PutType) && s' == Move(s, t, PutUpdate, Of(s, t).(copy := Of(s, t).copy.(kind := 0)))
    case FreeUpdate(t) =>
      Has(s, t, PutUpdate) && s' == Write(Move(s, t, PutInvalid, Of(s, t)), Of(s, t).inum, Of(s, t).copy)
    case Invalidate(t) =>
      Has(s, t, PutInvalid) && s' == Move(s, t, PutRelease(true), Of(s, t).(valid := false))
    case PutUnlock(t) =>
      && t in s.refs && s.refs[t].at.PutRelease? && Has(s, t, s.refs[t].at)
      && s' == Move(s, t, PutDrop(s.refs[t].at.freed), Of(s, t).(lock := -1))
    case Drop(t) =>
      && t in s.refs && s.refs[t].at.PutDrop? && Has(s, t, s.refs[t].at)
      && s' == s.(entries := s.entries[s.refs[t].e := Of(s, t).(ref := Of(s, t).ref - 1)], refs := s.refs - {t})
  }

  // ---- what every step keeps ----

  ghost function Users(refs: map<int, Ref>, e: int): set<int>
  {
    set t | t in refs && refs[t].e == e
  }

  predicate Locked(at: Phase) { !at.Idle? && !at.PutDrop? }

  /** The inode has been freed under this reference. */
  predicate Dead(at: Phase) { at.PutInvalid? || at == PutRelease(true) || at == PutDrop(true) }

  predicate Freeing(at: Phase) { at.PutTrunc? || at.PutType? || at.PutUpdate? }

  ghost predicate RefOk(s: State, t: int)
    requires t in s.refs
  {
    var at := s.refs[t].at;
    && t >= 0 && 0 <= s.refs[t].e < |s.entries|
    && var x := s.entries[s.refs[t].e];
    && x.ref > 0 && 0 <= x.inum < |s.disk|
    && (Locked(at) <==> x.lock == t)
    && (!Dead(at) ==> s.disk[x.inum].kind != 0)
    && (at.Owner? || at.Dirty? || Freeing(at) || at.PutInvalid? ==> x.valid)
    && (Freeing(at) ==> x.ref == 1 && x.copy.nlink == 0 && s.disk[x.inum].nlink == 0)
    && (at == PutRelease(true) ==> !x.valid)
  }

  /** A valid entry agrees with the disk, except while its holder is changing it. */
  ghost predicate Agrees(x: Entry, at: Phase, d: Dinode)
  {
    match at
    case Dirty => x.copy.kind != 0
    case PutUpdate => x.copy.kind == 0
    case PutInvalid => x.copy.kind == 0
    case _ => x.copy == d && d.kind != 0
  }

  ghost predicate EntryOk(s: State, e: int)
    requires 0 <= e < |s.entries|
  {
    var x := s.entries[e];
    && x.ref == |Users(s.refs, e)|
    && (x.lock == -1 || (x.lock in s.refs && s.refs[x.lock].e == e))
    && (x.ref > 0 ==> 0 <= x.inum < |s.disk|)
    && (x.ref > 0 && x.valid ==> Agrees(x, if x.lock == -1 then Idle else s.refs[x.lock].at, s.disk[x.inum]))
  }

  ghost predicate AllocOk(s: State, t: int)
    requires t in s.allocs
  {
    var inum := s.allocs[t];
    && t >= 0 && t !in s.refs && 0 <= inum < |s.disk| && s.disk[inum].kind != 0 && s.disk[inum].nlink == 0
    && (forall u | u in s.refs && 0 <= s.refs[u].e < |s.entries| && s.entries[s.refs[u].e].inum == inum ::
          Dead(s.refs[u].at))
    && (forall u | u in s.allocs && s.allocs[u] == inum :: u == t)
  }

  ghost predicate Unique(entries: seq<Entry>)
  {
    forall e, f | 0 <= e < f < |entries| && entries[e].ref > 0 && entries[f].ref > 0 ::
      entries[e].inum != entries[f].inum
  }

  ghost predicate Inv(s: State)
  {
    && (forall t {:trigger RefOk(s, t)} | t in s.refs :: RefOk(s, t))
    && (forall e {:trigger EntryOk(s, e)} | 0 <= e < |s.entries| :: EntryOk(s, e))
    && (forall t {:trigger AllocOk(s, t)} | t in s.allocs :: AllocOk(s, t))
    && Unique(s.entries)
  }

  lemma UsersAdd(refs: map<int, Ref>, t: int, r: Ref, f: int)
    requires t !in refs
    ensures |Users(refs[t := r], f)| == |Users(refs, f)| + if f == r.e then 1 else 0
  {
    assert Users(refs[t := r], f) == if f == r.e then Users(refs, f) + {t} else Users(refs, f);
  }

  lemma UsersMove(refs: map<int, Ref>, t: int, at: Phase, f: int)
    requires t in refs
    ensures Users(refs[t := Ref(refs[t].e, at)], f) == Users(refs, f)
  {
  }

  lemma UsersDrop(refs: map<int, Ref>, t: int, f: int)
    requires t in refs
    ensures |Users(refs - {t}, f)| == |Users(refs, f)| - if f == refs[t].e then 1 else 0
  {
    assert Users(refs - {t}, f) == if f == refs[t].e then Users(refs, f) - {t} else Users(refs, f);
  }

  /** A single user is the one at hand. */
  lemma Sole(refs: map<int, Ref>, t: int, u: int)
    requires t in refs && u in refs && refs[u].e == refs[t].e && |Users(refs, refs[t].e)| == 1
    ensures u == t
  {
    var us := Users(refs, refs[t].e);
    assert t in us && u in us;
    assert |us - {t}| == 0;
    assert u !in us - {t};
  }

  /** A step of reference t that does not write the disk. */
  lemma MoveKeeps(s: State, t: int, at: Phase, x: Entry, s': State)
    requires Inv(s) && t in s.refs && 0 <= s.refs[t].e < |s.entries| && s' == Move(s, t, at, x)
    requires x.ref == Of(s, t).ref && x.inum == Of(s, t).inum
    requires x.lock == (if Locked(at) then t else -1)
    requires Of(s, t).lock == t || Of(s, t).lock == -1
    requires RefOk(s', t) && (x.valid ==> Agrees(x, if x.lock == -1 then Idle else at, s.disk[x.inum]))
    requires Dead(s.refs[t].at) ==> Dead(at)
    requires !Dead(s.refs[t].at) ==> !Dead(at)
    ensures Inv(s')
  {
    assert RefOk(s, t);
    forall u | u in s'.refs ensures RefOk(s', u) {
      assert RefOk(s, u);
    }
    forall f | 0 <= f < |s'.entries| ensures EntryOk(s', f) {
      assert EntryOk(s, f);
      UsersMove(s.refs, t, at, f);
    }
    forall u | u in s'.allocs ensures AllocOk(s', u) {
      assert AllocOk(s, u);
    }
  }

  /** A step of reference t, holding the lock, that writes its inode to the disk. */
  lemma WriteKeeps(s: State, t: int, at: Phase, x: Entry, s': State)
    requires Inv(s) && t in s.refs && 0 <= s.refs[t].e < |s.entries| && 0 <= x.inum < |s.disk|
    requires s' == Write(Move(s, t, at, x), x.inum, x.copy)
    requires x.ref == Of(s, t).ref && x.inum == Of(s, t).inum && x.lock == t == Of(s, t).lock && Locked(at)
    requires !Dead(s.refs[t].at)
    requires RefOk(s', t) && (x.valid ==> Agrees(x, at, x.copy))
    requires x.copy.kind == 0 ==> x.ref == 1
    ensures Inv(s')
  {
    assert RefOk(s, t) && EntryOk(s, s.refs[t].e);
    forall u | u in s'.refs ensures RefOk(s', u) {
      assert RefOk(s, u);
      if x.ref == 1 && s.refs[u].e == s.refs[t].e { Sole(s.refs, t, u); }
    }
    forall f | 0 <= f < |s'.entries| ensures EntryOk(s', f) {
      assert EntryOk(s, f);
      UsersMove(s.refs, t, at, f);
    }
    forall u | u in s'.allocs ensures AllocOk(s', u) {
      assert AllocOk(s, u);
    }
  }

  lemma DropKeeps(s: State, t: int, s': State)
    requires Inv(s) && Next(s, Drop(t), s')
    ensures Inv(s')
  {
    assert RefOk(s, t) && EntryOk(s, s.refs[t].e);
    forall f | 0 <= f < |s'.entries| ensures EntryOk(s', f) {
      assert EntryOk(s, f);
      UsersDrop(s.refs, t, f);
      if s.entries[f].lock != -1 { assert RefOk(s, s.entries[f].lock); }
    }
    forall u | u in s'.refs ensures RefOk(s', u) {
      assert RefOk(s, u);
      if s.refs[u].e == s.refs[t].e && s.entries[s.refs[t].e].ref == 1 { Sole(s.refs, t, u); }
    }
    forall u | u in s'.allocs ensures AllocOk(s', u) {
      assert AllocOk(s, u);
    }
  }

  /** ialloc takes a free inode: nobody valid has it, except one about to be invalidated. */
  lemma AllocWriteKeeps(s: State, t: int, inum: int, kind: int, s': State)
    requires Inv(s) && Next(s, AllocWrite(t, inum, kind), s')
    ensures Inv(s')
  {
    forall u | u in s'.refs ensures RefOk(s', u) {
      assert RefOk(s, u);
    }
    forall f | 0 <= f < |s'.entries| ensures EntryOk(s', f) {
      assert EntryOk(s, f);
      if s.entries[f].lock != -1 { assert RefOk(s, s.entries[f].lock); }
    }
    forall u | u in s'.allocs ensures AllocOk(s', u) {
      if u != t {
        assert AllocOk(s, u);
      } else {
        forall v | v in s.refs && 0 <= s.refs[v].e < |s.entries| && s.entries[s.refs[v].e].inum == inum
          ensures Dead(s.refs[v].at)
        {
          assert RefOk(s, v);
        }
        forall v | v in s.allocs ensures s.allocs[v] != inum {
          assert AllocOk(s, v);
        }
      }
    }
  }

  ghost predicate RefersTo(s: State, u: int, inum: int)
  {
    u in s.refs && 0 <= s.refs[u].e < |s.entries| && s.entries[s.refs[u].e].inum == inum
  }

  /** The inode is allocated, iput is not freeing it and ialloc is not between marking it and
      its own iget. */
  ghost predicate Alive(s: State, inum: int)
  {
    && 0 <= inum < |s.disk| && s.disk[inum].kind != 0
    && (forall u | RefersTo(s, u, inum) :: !Freeing(s.refs[u].at))
    && (forall u | u in s.allocs :: s.allocs[u] != inum)
  }

  /** A new reference to an allocated inode that nobody is freeing. */
  lemma AddKeeps(s: State, t: int, inum: int, e: int, allocs: map<int, int>, s': State)
    requires Inv(s) && t >= 0 && t !in s.refs && 0 <= inum < |s.disk| && s.disk[inum].kind != 0
    requires Chosen(s.entries, inum, e) && s' == Add(s, t, inum, e).(allocs := allocs)
    requires forall u | RefersTo(s, u, inum) :: !Freeing(s.refs[u].at)
    requires t !in allocs && forall u | u in allocs :: u in s.allocs && allocs[u] == s.allocs[u] && allocs[u] != inum
    ensures Inv(s')
  {
    assert EntryOk(s, e);
    assert s.entries[e].lock != t;
    forall f | 0 <= f < |s.entries| && f != e && s.entries[f].ref > 0 ensures s.entries[f].inum != s'.entries[e].inum {
      assert Cached(s.entries, s.entries[f].inum, f);
    }
    forall f | 0 <= f < |s'.entries| ensures EntryOk(s', f) {
      assert EntryOk(s, f);
      UsersAdd(s.refs, t, Ref(e, Idle), f);
      if s.entries[f].lock != -1 { assert RefOk(s, s.entries[f].lock); }
    }
    forall u | u in s'.refs ensures RefOk(s', u) {
      if u != t { assert RefOk(s, u); }
    }
    forall u | u in s'.allocs ensures AllocOk(s', u) {
      assert AllocOk(s, u);
    }
  }

  /** iget keeps the invariant exactly if the inode is alive. */
  lemma GetIff(s: State, t: int, inum: int, s': State)
    requires Inv(s) && Next(s, Get(t, inum), s')
    ensures Inv(s') <==> Alive(s, inum)
  {
    var e :| Chosen(s.entries, inum, e) && s' == Add(s, t, inum, e);
    if Alive(s, inum) {
      AddKeeps(s, t, inum, e, s.allocs, s');
    }
    if Inv(s') {
      assert RefOk(s', t);
      forall u | RefersTo(s, u, inum) ensures !Freeing(s.refs[u].at) {
        assert RefOk(s, u) && RefOk(s', u);
      }
      forall u | u in s.allocs ensures s.allocs[u] != inum {
        assert AllocOk(s', u);
        assert s'.entries[s'.refs[t].e].inum == inum;
      }
    }
  }

  /** A link keeps an inode alive. */
  lemma LinkedIsAlive(s: State, inum: int)
    requires Inv(s) && 0 <= inum < |s.disk| && s.disk[inum].kind != 0 && s.disk[inum].nlink > 0
    ensures Alive(s, inum)
  {
    forall u | RefersTo(s, u, inum) ensures !Freeing(s.refs[u].at) {
      assert RefOk(s, u);
    }
    forall u | u in s.allocs ensures s.allocs[u] != inum {
      assert AllocOk(s, u);
    }
  }

  /** So does a reference, linked or not, in any use but the last stretch of iput. */
  lemma HeldIsAlive(s: State, u: int)
    requires Inv(s) && u in s.refs && !Freeing(s.refs[u].at) && !Dead(s.refs[u].at)
    ensures 0 <= s.refs[u].e < |s.entries| && Alive(s, Of(s, u).inum)
  {
    assert RefOk(s, u) && EntryOk(s, s.refs[u].e);
    var inum := Of(s, u).inum;
    forall v | RefersTo(s, v, inum) ensures !Freeing(s.refs[v].at) {
      assert RefOk(s, v);
      assert s.refs[v].e == s.refs[u].e;
      if Freeing(s.refs[v].at) { Sole(s.refs, u, v); }
    }
    forall v | v in s.allocs ensures s.allocs[v] != inum {
      assert AllocOk(s, v);
    }
  }

  /** iget of a free inode: the ilock that follows panics. */
  lemma FreeInodePanics(s: State, t: int, inum: int, s': State)
    requires Inv(s) && Next(s, Get(t, inum), s') && s.disk[inum].kind == 0 && Of(s', t).lock == -1
    ensures Has(s', t, Idle) && Panics(Move(s', t, Locking, Of(s', t).(lock := t)), t)
  {
    var e :| Chosen(s.entries, inum, e) && s' == Add(s, t, inum, e);
    assert EntryOk(s, e);
  }

  ghost predicate Steps(states: seq<State>, actions: seq<Action>)
  {
    |states| == |actions| + 1 && forall i | 0 <= i < |actions| :: Next(states[i], actions[i], states[i + 1])
  }

  /** The user of u is freeing the inode, and t refers to it too. */
  ghost predicate SharedFreeing(s: State, t: int, u: int, inum: int)
  {
    && t != u && RefersTo(s, t, inum) && RefersTo(s, u, inum) && 0 <= inum < |s.disk| && Freeing(s.refs[u].at)
    && (s.refs[u].at.PutUpdate? ==> Of(s, u).copy.kind == 0)
  }

  function StepsLeft(at: Phase): nat { if at.PutTrunc? then 2 else if at.PutType? then 1 else 0 }

  ghost predicate FreedUnder(s: State, t: int, inum: int)
  {
    RefersTo(s, t, inum) && 0 <= inum < |s.disk| && s.disk[inum].kind == 0
  }

  lemma FreeStep(s: State, t: int, u: int, inum: int) returns (a: Action, s': State)
    requires SharedFreeing(s, t, u, inum)
    ensures Next(s, a, s')
    ensures
      if s.refs[u].at.PutUpdate? then a == FreeUpdate(u) && FreedUnder(s', t, inum)
      else SharedFreeing(s', t, u, inum) && StepsLeft(s'.refs[u].at) < StepsLeft(s.refs[u].at)
  {
    var x := Of(s, u);
    if s.refs[u].at.PutTrunc? {
      var c := x.copy.(size := 0, addrs := NoAddrs());
      return Trunc(u), Write(Move(s, u, PutType, x.(copy := c)), inum, c);
    } else if s.refs[u].at.PutType? {
      return ClearType(u), Move(s, u, PutUpdate, x.(copy := x.copy.(kind := 0)));
    } else {
      return FreeUpdate(u), Write(Move(s, u, PutInvalid, x), inum, x.copy);
    }
  }

  /** The rest of iput's steps, up to the write that frees the inode. */
  lemma {:induction false} FreeingFrees(s: State, t: int, u: int, inum: int)
    returns (states: seq<State>, actions: seq<Action>)
    requires SharedFreeing(s, t, u, inum)
    ensures Steps(states, actions) && states[0] == s && |actions| > 0 && actions[|actions| - 1] == FreeUpdate(u)
    ensures FreedUnder(states[|actions|], t, inum)
    decreases StepsLeft(s.refs[u].at)
  {
    hide Next, SharedFreeing, FreedUnder;
    var a, s' := FreeStep(s, t, u, inum);
    states, actions := [s, s'], [a];
    if a != FreeUpdate(u) || !FreedUnder(s', t, inum) {
      var states', actions' := FreeingFrees(s', t, u, inum);
      states, actions := [s] + states', [a] + actions';
    }
  }

  /** iget of an inode that iput is freeing: iput goes on and frees it under two references. */
  lemma FreeingIsShared(s: State, t: int, u: int, inum: int, s': State)
    returns (states: seq<State>, actions: seq<Action>)
    requires Inv(s) && Next(s, Get(t, inum), s') && RefersTo(s, u, inum) && Freeing(s.refs[u].at)
    ensures Steps(states, actions) && states[0] == s' && |actions| > 0 && actions[|actions| - 1] == FreeUpdate(u)
    ensures t != u && FreedUnder(states[|actions|], t, inum)
  {
    assert RefOk(s, u) && EntryOk(s, s.refs[u].e);
    states, actions := FreeingFrees(s', t, u, inum);
  }

  /** What a step asks of its caller. */
  ghost predicate Safe(s: State, a: Action) { a.Get? ==> Alive(s, a.inum) }

  lemma StepKeeps(s: State, a: Action, s': State)
    requires Inv(s) && Next(s, a, s') && Safe(s, a)
    ensures Inv(s')
  {
    hide Inv, Next;
    match a
    case Get(t, inum) => GetIff(s, t, inum, s');
    case Dup(t, from) => DupKeeps(s, t, from, s');
    case AllocWrite(t, inum, kind) => AllocWriteKeeps(s, t, inum, kind, s');
    case AllocGet(t) => AllocGetKeeps(s, t, s');
    case Drop(t) => DropKeeps(s, t, s');
    case Update(t) => WriterKeeps(s, a, s');
    case Trunc(t) => WriterKeeps(s, a, s');
    case FreeUpdate(t) => WriterKeeps(s, a, s');
    case Lock(t) => LockerKeeps(s, a, s');
    case Load(t) => LockerKeeps(s, a, s');
    case Edit(t, copy) => LockerKeeps(s, a, s');
    case Unlock(t) => LockerKeeps(s, a, s');
    case ClearType(t) => FreerKeeps(s, a, s');
    case Invalidate(t) => FreerKeeps(s, a, s');
    case _ => PutterKeeps(s, a, s');
  }

  lemma DupKeeps(s: State, t: int, from: int, s': State)
    requires Inv(s) && Next(s, Dup(t, from), s')
    ensures Inv(s')
  {
    HeldIsAlive(s, from);
    assert RefOk(s, from);
    assert Cached(s.entries, Of(s, from).inum, s.refs[from].e);
    AddKeeps(s, t, Of(s, from).inum, s.refs[from].e, s.allocs, s');
  }

  lemma AllocGetKeeps(s: State, t: int, s': State)
    requires Inv(s) && Next(s, AllocGet(t), s')
    ensures Inv(s')
  {
    var inum := s.allocs[t];
    var e :| Chosen(s.entries, inum, e) && s' == Add(s, t, inum, e).(allocs := s.allocs - {t});
    assert AllocOk(s, t);
    AddKeeps(s, t, inum, e, s.allocs - {t}, s');
  }

  lemma WriterKeeps(s: State, a: Action, s': State)
    requires Inv(s) && Next(s, a, s') && (a.Update? || a.Trunc? || a.FreeUpdate?)
    ensures Inv(s')
  {
    assert RefOk(s, a.t) && EntryOk(s, s.refs[a.t].e);
    hide Inv;
    WriteKeeps(s, a.t, s'.refs[a.t].at, Of(s', a.t), s');
  }

  /** ilock, iunlock and changes under the lock. */
  lemma LockerKeeps(s: State, a: Action, s': State)
    requires Inv(s) && Next(s, a, s') && (a.Lock? || a.Load? || a.Edit? || a.Unlock?)
    ensures Inv(s')
  {
    assert RefOk(s, a.t) && EntryOk(s, s.refs[a.t].e);
    hide Inv;
    MoveKeeps(s, a.t, s'.refs[a.t].at, Of(s', a.t), s');
  }

  /** iput, without what frees the inode. */
  lemma PutterKeeps(s: State, a: Action, s': State)
    requires Inv(s) && Next(s, a, s') && (a.PutLock? || a.Check? || a.PutUnlock?)
    ensures Inv(s')
  {
    assert RefOk(s, a.t) && EntryOk(s, s.refs[a.t].e);
    hide Inv;
    MoveKeeps(s, a.t, s'.refs[a.t].at, Of(s', a.t), s');
  }

  lemma FreerKeeps(s: State, a: Action, s': State)
    requires Inv(s) && Next(s, a, s') && (a.ClearType? || a.Invalidate?)
    ensures Inv(s')
  {
    assert RefOk(s, a.t) && EntryOk(s, s.refs[a.t].e);
    hide Inv;
    MoveKeeps(s, a.t, s'.refs[a.t].at, Of(s', a.t), s');
  }

  // ---- every run ----

  ghost predicate Boot(s: State)
  {
    && s.refs == map[] && s.allocs == map[]
    && forall e | 0 <= e < |s.entries| :: s.entries[e].ref == 0 && s.entries[e].lock == -1
  }

  ghost predicate Run(states: seq<State>, actions: seq<Action>)
  {
    && |states| == |actions| + 1 && Boot(states[0])
    && (forall i | 0 <= i < |actions| :: Next(states[i], actions[i], states[i + 1]))
  }

  /** A run whose igets are all of inodes that are alive. */
  ghost predicate SafeRun(states: seq<State>, actions: seq<Action>)
  {
    Run(states, actions) && forall i | 0 <= i < |actions| :: Safe(states[i], actions[i])
  }

  lemma {:induction false} RunKeeps(states: seq<State>, actions: seq<Action>, k: nat)
    requires SafeRun(states, actions) && k < |states|
    ensures Inv(states[k])
  {
    if k == 0 {
      var s := states[0];
      forall e | 0 <= e < |s.entries| ensures EntryOk(s, e) {
        assert Users(s.refs, e) == {};
      }
    } else {
      RunKeeps(states, actions, k - 1);
      assert Next(states[k - 1], actions[k - 1], states[k - 1 + 1]);
      assert Safe(states[k - 1], actions[k - 1]);
      StepKeeps(states[k - 1], actions[k - 1], states[k]);
    }
  }

  ghost predicate Coherent(s: State)
  {
    && Unique(s.entries)
    && (forall e | 0 <= e < |s.entries| :: s.entries[e].ref == |Users(s.refs, e)|)
    && (forall e | 0 <= e < |s.entries| && s.entries[e].ref > 0 && s.entries[e].valid && s.entries[e].lock == -1 ::
          0 <= s.entries[e].inum < |s.disk| && s.entries[e].copy == s.disk[s.entries[e].inum])
  }

  /** In every state of every such run: one entry per referenced inode, counts that equal the
      references held, and every unlocked valid entry equal to the disk in all its fields. */
  lemma EveryReachableState(states: seq<State>, actions: seq<Action>, k: nat)
    requires SafeRun(states, actions) && k < |states|
    ensures Coherent(states[k])
  {
    RunKeeps(states, actions, k);
    var s := states[k];
    forall e | 0 <= e < |s.entries|
      ensures s.entries[e].ref == |Users(s.refs, e)|
      ensures s.entries[e].ref > 0 && s.entries[e].valid && s.entries[e].lock == -1 ==>
        0 <= s.entries[e].inum < |s.disk| && s.entries[e].copy == s.disk[s.entries[e].inum]
    {
      assert EntryOk(s, e);
    }
  }

  /** ilock never reads a free inode: its panic is not reached. */
  lemma LoadFindsType(states: seq<State>, actions: seq<Action>, k: nat, t: int)
    requires SafeRun(states, actions) && k < |states|
    ensures !Panics(states[k], t)
  {
    RunKeeps(states, actions, k);
    if t in states[k].refs { assert RefOk(states[k], t); }
  }

  /** The only reference to the inode of t is t. */
  ghost predicate Alone(s: State, t: int)
  {
    t in s.refs && 0 <= s.refs[t].e < |s.entries| && forall u | RefersTo(s, u, Of(s, t).inum) :: u == t
  }

  /** When iput marks an inode free on the disk, it has no links and the reference being
      dropped is the only one. */
  lemma FreedAlone(states: seq<State>, actions: seq<Action>, k: nat, t: int)
    requires SafeRun(states, actions) && k < |actions| && actions[k] == FreeUpdate(t)
    ensures
      var s := states[k];
      && Has(s, t, PutUpdate) && s.disk[Of(s, t).inum].kind != 0 && s.disk[Of(s, t).inum].nlink == 0
      && states[k + 1].disk[Of(s, t).inum].kind == 0 && Alone(s, t)
  {
    RunKeeps(states, actions, k);
    var s := states[k];
    assert Next(s, actions[k], states[k + 1]);
    assert RefOk(s, t) && EntryOk(s, s.refs[t].e);
    forall u | RefersTo(s, u, Of(s, t).inum) ensures u == t {
      assert RefOk(s, u);
      Sole(s.refs, t, u);
    }
  }

  // ---- which iput frees ----

  /** The inode is free on the disk, with no size and no blocks. */
  predicate Cleared(d: Dinode) { d.kind == 0 && d.size == 0 && d.addrs == NoAddrs() }

  /** Valid in the cache, without links, and with no other reference. */
  ghost predicate LastUse(s: State, t: int)
  {
    Alone(s, t) && Of(s, t).valid && 0 <= Of(s, t).inum < |s.disk| && s.disk[Of(s, t).inum].nlink == 0
  }

  /** From its check to its end, iput is on the way that frees the inode, or on the other. */
  ghost predicate OnTheWay(s: State, t: int, e: int, inum: int, last: bool)
  {
    && t in s.refs && s.refs[t].e == e && 0 <= e < |s.entries| && s.entries[e].inum == inum && 0 <= inum < |s.disk|
    && var at := s.refs[t].at;
       && (if last then Freeing(at) || Dead(at) else at == PutRelease(false) || at == PutDrop(false))
       && (at.PutType? || at.PutUpdate? ==> s.entries[e].copy.size == 0 && s.entries[e].copy.addrs == NoAddrs())
  }

  ghost predicate ClearedBy(states: seq<State>, inum: int, k: int, m: int)
  {
    exists j :: 0 <= k < j <= m < |states| && 0 <= inum < |states[j].disk| && Cleared(states[j].disk[inum])
  }

  lemma ClearedLater(states: seq<State>, inum: int, k: int, m: int, n: int)
    requires ClearedBy(states, inum, k, m) && m <= n < |states|
    ensures ClearedBy(states, inum, k, n)
  {
  }

  lemma CheckDecides(s: State, t: int, s': State)
    requires Inv(s) && Next(s, Check(t), s')
    ensures OnTheWay(s', t, s.refs[t].e, Of(s, t).inum, LastUse(s, t)) && !Dead(s'.refs[t].at)
  {
    assert RefOk(s, t) && EntryOk(s, s.refs[t].e);
    var us := Users(s.refs, s.refs[t].e);
    assert t in us;
    if |us| == 1 {
      forall u | RefersTo(s, u, Of(s, t).inum) ensures u == t {
        assert RefOk(s, u);
        Sole(s.refs, t, u);
      }
    } else {
      var u := Another(us, t);
      assert RefersTo(s, u, Of(s, t).inum);
    }
  }

  /** A step leaves alone what another process refers to, and what it has locked. */
  lemma OthersLeave(s: State, a: Action, s': State, t: int)
    requires Inv(s) && Next(s, a, s') && t in s.refs && a.t != t
    ensures t in s'.refs && s'.refs[t] == s.refs[t] && |s'.disk| == |s.disk|
    ensures 0 <= s.refs[t].e < |s.entries| == |s'.entries| && Of(s', t).inum == Of(s, t).inum
    ensures Locked(s.refs[t].at) ==> Of(s', t).copy == Of(s, t).copy
  {
    assert RefOk(s, t);
    if a.t in s.refs { assert RefOk(s, a.t); }
    if a.Dup? { assert RefOk(s, a.from); }
  }

  lemma NotPending(s: State, t: int)
    requires Inv(s) && t in s.refs
    ensures t !in s.allocs
  {
    forall u | u in s.allocs ensures u !in s.refs { assert AllocOk(s, u); }
  }

  /** Its own steps lead through a cleared inode. */
  lemma OwnWay(s: State, a: Action, s': State, t: int, e: int, inum: int, last: bool)
    requires Inv(s) && Next(s, a, s') && OnTheWay(s, t, e, inum, last) && a != Drop(t) && a.t == t
    ensures OnTheWay(s', t, e, inum, last)
    ensures Dead(s'.refs[t].at) && !Dead(s.refs[t].at) ==> Cleared(s'.disk[inum])
  {
    assert RefOk(s, t) && EntryOk(s, e);
    NotPending(s, t);
  }

  lemma WayStep(s: State, a: Action, s': State, t: int, e: int, inum: int, last: bool)
    requires Inv(s) && Next(s, a, s') && OnTheWay(s, t, e, inum, last) && a != Drop(t)
    ensures OnTheWay(s', t, e, inum, last)
    ensures Dead(s'.refs[t].at) && !Dead(s.refs[t].at) ==> Cleared(s'.disk[inum])
  {
    hide Next, Inv;
    if a.t == t { OwnWay(s, a, s', t, e, inum, last); } else { OthersLeave(s, a, s', t); }
  }

  /** A finished iput has marked its inode free on the disk exactly if, at its check, the inode was
      in its last use, whatever its size and its blocks. */
  lemma FreedIff(states: seq<State>, actions: seq<Action>, k: nat, m: nat, t: int)
    requires SafeRun(states, actions) && k < m < |actions| && actions[k] == Check(t) && actions[m] == Drop(t)
    requires forall j | k < j < m :: actions[j] != Drop(t)
    ensures Has(states[k], t, PutCheck)
    ensures
      var inum := Of(states[k], t).inum;
      && (forall j | k <= j <= m :: 0 <= inum < |states[j].disk|)
      && (LastUse(states[k], t) ==> ClearedBy(states, inum, k, m))
      && (!LastUse(states[k], t) ==> forall j | k < j <= m :: states[j].disk[inum].kind != 0)
  {
    assert Next(states[k], actions[k], states[k + 1]);
    var e, inum, last := states[k].refs[t].e, Of(states[k], t).inum, LastUse(states[k], t);
    forall j | k < j <= m
      ensures OnTheWay(states[j], t, e, inum, last)
      ensures Dead(states[j].refs[t].at) ==> ClearedBy(states, inum, k, j)
      ensures !last ==> states[j].disk[inum].kind != 0
    {
      StaysOnTheWay(states, actions, k, j, t, e, inum, last);
    }
    assert Next(states[m], actions[m], states[m + 1]);
  }

  lemma {:induction false} StaysOnTheWay(states: seq<State>, actions: seq<Action>, k: nat, j: nat, t: int, e: int,
                                         inum: int, last: bool)
    requires SafeRun(states, actions) && k < j <= |actions| && actions[k] == Check(t)
    requires forall i | k < i < j :: actions[i] != Drop(t)
    requires Has(states[k], t, PutCheck) && e == states[k].refs[t].e && inum == Of(states[k], t).inum
    requires last == LastUse(states[k], t)
    ensures OnTheWay(states[j], t, e, inum, last)
    ensures Dead(states[j].refs[t].at) ==> ClearedBy(states, inum, k, j)
    ensures !last ==> states[j].disk[inum].kind != 0
  {
    hide Next, Inv;
    RunKeeps(states, actions, j - 1);
    RunKeeps(states, actions, j);
    assert Next(states[j - 1], actions[j - 1], states[j - 1 + 1]);
    if j == k + 1 {
      CheckDecides(states[k], t, states[k + 1]);
    } else {
      StaysOnTheWay(states, actions, k, j - 1, t, e, inum, last);
      WayStep(states[j - 1], actions[j - 1], states[j], t, e, inum, last);
      if Dead(states[j - 1].refs[t].at) { ClearedLater(states, inum, k, j - 1, j); }
    }
    if !last { NotFree(states[j], t); }
  }

  lemma NotFree(s: State, t: int)
    requires Inv(s) && t in s.refs && !Dead(s.refs[t].at)
    ensures 0 <= s.refs[t].e < |s.entries| && 0 <= Of(s, t).inum < |s.disk| && s.disk[Of(s, t).inum].kind != 0
  {
    assert RefOk(s, t);
  }

  // ---- runs in which iget is given an inode that is not alive ----

  const FREE: Dinode := Inode(0, 0, 0, 0, 0, NoAddrs(), 0)
  const UNLINKED: Dinode := Inode(1, 0, 0, 0, 0, NoAddrs(), 0)
  const LINKED: Dinode := Inode(1, 0, 0, 1, 0, NoAddrs(), 0)

  /** One entry, for inode 1, which is d on the disk. */
  function One(x: Entry, d: Dinode, refs: map<int, Ref>, allocs: map<int, int>): State
  {
    State([x], [FREE, d], refs, allocs)
  }

  /** The same with the one reference 0. */
  function Own(x: Entry, d: Dinode, at: Phase, allocs: map<int, int>): State { One(x, d, map[0 := Ref(0, at)], allocs) }

  lemma MoveOwn(x: Entry, d: Dinode, at: Phase, y: Entry, at': Phase, allocs: map<int, int>)
    ensures Move(Own(x, d, at, allocs), 0, at', y) == Own(y, d, at', allocs)
  {
    assert [x][0 := y] == [y];
    assert map[0 := Ref(0, at)][0 := Ref(0, at')] == map[0 := Ref(0, at')];
  }

  lemma WriteOne(x: Entry, d: Dinode, refs: map<int, Ref>, c: Dinode, allocs: map<int, int>)
    ensures Write(One(x, d, refs, allocs), 1, c) == One(x, c, refs, allocs)
  {
    assert [FREE, d][1 := c] == [FREE, c];
  }

  lemma AddOne(x: Entry, d: Dinode, refs: map<int, Ref>, t: int, allocs: map<int, int>)
    requires x.ref == 0 || (x.ref > 0 && x.inum == 1)
    ensures
      var s := One(x, d, refs, allocs);
      Chosen(s.entries, 1, 0) && Add(s, t, 1, 0) == One(Taken(x, 1), d, refs[t := Ref(0, Idle)], allocs)
  {
    assert [x][0 := Taken(x, 1)] == [Taken(x, 1)];
  }

  lemma GetOne(x: Entry, d: Dinode, refs: map<int, Ref>, t: int, allocs: map<int, int>)
    requires t >= 0 && t !in refs && t !in allocs && (x.ref == 0 || (x.ref > 0 && x.inum == 1))
    ensures Next(One(x, d, refs, allocs), Get(t, 1), One(Taken(x, 1), d, refs[t := Ref(0, Idle)], allocs))
  {
    AddOne(x, d, refs, t, allocs);
  }

  ghost predicate Leads(states: seq<State>, actions: seq<Action>, s: State)
  {
    Run(states, actions) && states[|actions|] == s
  }

  lemma Step(states: seq<State>, actions: seq<Action>, s: State, a: Action, s': State)
    returns (states': seq<State>, actions': seq<Action>)
    requires Leads(states, actions, s) && Next(s, a, s')
    ensures Leads(states', actions', s') && states' == states + [s'] && actions' == actions + [a]
  {
    states', actions' := states + [s'], actions + [a];
  }

  lemma OwnLocks(x: Entry, d: Dinode, allocs: map<int, int>)
    requires x.inum == 1 && x.lock == -1
    ensures Next(Own(x, d, Idle, allocs), Lock(0), Own(x.(lock := 0), d, Locking, allocs))
    ensures Next(Own(x, d, Idle, allocs), PutLock(0), Own(x.(lock := 0), d, PutCheck, allocs))
  {
    MoveOwn(x, d, Idle, x.(lock := 0), Locking, allocs);
    MoveOwn(x, d, Idle, x.(lock := 0), PutCheck, allocs);
  }

  lemma OwnLoads(x: Entry, d: Dinode, allocs: map<int, int>)
    requires x.inum == 1 && !x.valid && d.kind != 0
    ensures Next(Own(x, d, Locking, allocs), Load(0), Own(x.(copy := d, valid := true), d, Owner, allocs))
  {
    MoveOwn(x, d, Locking, x.(copy := d, valid := true), Owner, allocs);
  }

  lemma OwnEdits(x: Entry, d: Dinode, c: Dinode, allocs: map<int, int>)
    requires x.inum == 1 && c.kind == x.copy.kind
    ensures Next(Own(x, d, Owner, allocs), Edit(0, c), Own(x.(copy := c), d, Dirty, allocs))
    ensures Next(Own(x, d, Dirty, allocs), Update(0), Own(x, x.copy, Owner, allocs))
    ensures Next(Own(x, d, Owner, allocs), Unlock(0), Own(x.(lock := -1), d, Idle, allocs))
  {
    MoveOwn(x, d, Owner, x.(copy := c), Dirty, allocs);
    MoveOwn(x, d, Dirty, x, Owner, allocs);
    WriteOne(x, d, map[0 := Ref(0, Owner)], x.copy, allocs);
    MoveOwn(x, d, Owner, x.(lock := -1), Idle, allocs);
  }

  lemma OwnFrees(x: Entry, d: Dinode, allocs: map<int, int>)
    requires x.inum == 1 && x.ref == 1 && x.valid && x.copy == UNLINKED
    ensures Next(Own(x, d, PutCheck, allocs), Check(0), Own(x, d, PutTrunc, allocs))
    ensures Next(Own(x, d, PutTrunc, allocs), Trunc(0), Own(x, UNLINKED, PutType, allocs))
    ensures Next(Own(x, d, PutType, allocs), ClearType(0), Own(x.(copy := FREE), d, PutUpdate, allocs))
  {
    MoveOwn(x, d, PutCheck, x, PutTrunc, allocs);
    MoveOwn(x, d, PutTrunc, x, PutType, allocs);
    WriteOne(x, d, map[0 := Ref(0, PutType)], UNLINKED, allocs);
    MoveOwn(x, d, PutType, x.(copy := FREE), PutUpdate, allocs);
  }

  lemma OwnDies(x: Entry, d: Dinode, allocs: map<int, int>)
    requires x.inum == 1
    ensures Next(Own(x, d, PutUpdate, allocs), FreeUpdate(0), Own(x, x.copy, PutInvalid, allocs))
    ensures Next(Own(x, d, PutInvalid, allocs), Invalidate(0), Own(x.(valid := false), d, PutRelease(true), allocs))
    ensures Next(Own(x, d, PutRelease(true), allocs), PutUnlock(0), Own(x.(lock := -1), d, PutDrop(true), allocs))
  {
    MoveOwn(x, d, PutUpdate, x, PutInvalid, allocs);
    WriteOne(x, d, map[0 := Ref(0, PutInvalid)], x.copy, allocs);
    MoveOwn(x, d, PutInvalid, x.(valid := false), PutRelease(true), allocs);
    MoveOwn(x, d, PutRelease(true), x.(lock := -1), PutDrop(true), allocs);
  }

  lemma OwnDrops(x: Entry, d: Dinode, allocs: map<int, int>)
    requires x.inum == 1
    ensures Next(Own(x, d, PutDrop(true), allocs), Drop(0), One(x.(ref := x.ref - 1), d, map[], allocs))
  {
    assert map[0 := Ref(0, PutDrop(true))] - {0} == map[];
    assert [x][0 := x.(ref := x.ref - 1)] == [x.(ref := x.ref - 1)];
  }

  /** iget, ilock, the last link removed, iupdate, iunlock. */
  lemma Unlink() returns (states: seq<State>, actions: seq<Action>)
    ensures Leads(states, actions, Own(Entry(1, 1, true, UNLINKED, -1), UNLINKED, Idle, map[]))
  {
    var w := Entry(0, 0, false, FREE, -1);
    var x := Entry(1, 1, false, FREE, -1);
    var y := Entry(1, 1, true, LINKED, 0);
    var z := Entry(1, 1, true, UNLINKED, 0);
    var s := One(w, LINKED, map[], map[]);
    states, actions := [s], [];
    assert Leads(states, actions, s);
    hide Leads, Next;
    GetOne(w, LINKED, map[], 0, map[]);
    OwnLocks(x, LINKED, map[]);
    OwnLoads(x.(lock := 0), LINKED, map[]);
    OwnEdits(y, LINKED, UNLINKED, map[]);
    OwnEdits(z, LINKED, UNLINKED, map[]);
    OwnEdits(z, UNLINKED, UNLINKED, map[]);
    var s1 := Own(x, LINKED, Idle, map[]);
    var s2 := Own(x.(lock := 0), LINKED, Locking, map[]);
    var s3 := Own(y, LINKED, Owner, map[]);
    var s4 := Own(z, LINKED, Dirty, map[]);
    var s5 := Own(z, UNLINKED, Owner, map[]);
    states, actions := Step(states, actions, s, Get(0, 1), s1);
    states, actions := Step(states, actions, s1, Lock(0), s2);
    states, actions := Step(states, actions, s2, Load(0), s3);
    states, actions := Step(states, actions, s3, Edit(0, UNLINKED), s4);
    states, actions := Step(states, actions, s4, Update(0), s5);
    states, actions := Step(states, actions, s5, Unlock(0), Own(z.(lock := -1), UNLINKED, Idle, map[]));
  }

  /** Then iput, up to the write that frees the inode on the disk. */
  lemma Put(before: seq<State>, sofar: seq<Action>, allocs: map<int, int>)
    returns (states: seq<State>, actions: seq<Action>)
    requires Leads(before, sofar, Own(Entry(1, 1, true, UNLINKED, -1), UNLINKED, Idle, allocs))
    ensures Leads(states, actions, Own(Entry(1, 1, true, FREE, 0), UNLINKED, PutUpdate, allocs))
  {
    hide Leads, Next;
    var x := Entry(1, 1, true, UNLINKED, -1);
    var z := Entry(1, 1, true, UNLINKED, 0);
    OwnLocks(x, UNLINKED, allocs);
    OwnFrees(z, UNLINKED, allocs);
    var s1 := Own(z, UNLINKED, PutCheck, allocs);
    var s2 := Own(z, UNLINKED, PutTrunc, allocs);
    var s3 := Own(z, UNLINKED, PutType, allocs);
    states, actions := Step(before, sofar, Own(x, UNLINKED, Idle, allocs), PutLock(0), s1);
    states, actions := Step(states, actions, s1, Check(0), s2);
    states, actions := Step(states, actions, s2, Trunc(0), s3);
    states, actions := Step(states, actions, s3, ClearType(0), Own(z.(copy := FREE), UNLINKED, PutUpdate, allocs));
  }

  /** ... and from there to its end. */
  lemma PutEnds(before: seq<State>, sofar: seq<Action>, allocs: map<int, int>)
    returns (states: seq<State>, actions: seq<Action>)
    requires Leads(before, sofar, Own(Entry(1, 1, true, FREE, 0), UNLINKED, PutUpdate, allocs))
    ensures Leads(states, actions, One(Entry(1, 0, false, FREE, -1), FREE, map[], allocs))
  {
    hide Leads, Next;
    var w := Entry(1, 1, true, FREE, 0);
    var u := Entry(1, 1, false, FREE, 0);
    var v := Entry(1, 1, false, FREE, -1);
    OwnDies(w, UNLINKED, allocs);
    OwnDies(w, FREE, allocs);
    OwnDies(u, FREE, allocs);
    OwnDrops(v, FREE, allocs);
    var s1 := Own(w, FREE, PutInvalid, allocs);
    var s2 := Own(u, FREE, PutRelease(true), allocs);
    var s3 := Own(v, FREE, PutDrop(true), allocs);
    states, actions := Step(before, sofar, Own(w, UNLINKED, PutUpdate, allocs), FreeUpdate(0), s1);
    states, actions := Step(states, actions, s1, Invalidate(0), s2);
    states, actions := Step(states, actions, s2, PutUnlock(0), s3);
    states, actions := Step(states, actions, s3, Drop(0), One(v.(ref := 0), FREE, map[], allocs));
  }

  lemma LockMoves(s: State, t: int)
    requires Has(s, t, Idle) && Of(s, t).lock == -1
    ensures Next(s, Lock(t), Move(s, t, Locking, Of(s, t).(lock := t)))
  {
  }

  /** A look-up of ".." in a directory below still finds the freed inode's number, and the ilock
      behind it panics. */
  lemma StaleLookup() returns (states: seq<State>, actions: seq<Action>, s: State)
    ensures Leads(states, actions, s) && Panics(s, 1)
  {
    hide Leads, Next;
    var v := Entry(1, 0, false, FREE, -1);
    states, actions := Unlink();
    states, actions := Put(states, actions, map[]);
    states, actions := PutEnds(states, actions, map[]);
    GetOne(v, FREE, map[], 1, map[]);
    var got := One(v.(ref := 1), FREE, map[1 := Ref(0, Idle)], map[]);
    states, actions := Step(states, actions, One(v, FREE, map[], map[]), Get(1, 1), got);
    s := Move(got, 1, Locking, v.(ref := 1, lock := 1));
    LockMoves(got, 1);
    states, actions := Step(states, actions, got, Lock(1), s);
  }

  /** The look-up comes while iput is at work: the inode is freed under a second reference. */
  lemma FreedShared() returns (states: seq<State>, actions: seq<Action>, s: State, s': State)
    ensures Leads(states, actions, s) && Next(s, FreeUpdate(0), s')
    ensures Has(s, 0, PutUpdate) && !Alone(s, 0) && s'.disk[Of(s, 0).inum].kind == 0
  {
    hide Leads;
    var w := Entry(1, 1, true, FREE, 0);
    states, actions := Unlink();
    states, actions := Put(states, actions, map[]);
    GetOne(w, UNLINKED, map[0 := Ref(0, PutUpdate)], 1, map[]);
    s := One(w.(ref := 2), UNLINKED, map[0 := Ref(0, PutUpdate)][1 := Ref(0, Idle)], map[]);
    states, actions := Step(states, actions, Own(w, UNLINKED, PutUpdate, map[]), Get(1, 1), s);
    s' := Write(Move(s, 0, PutInvalid, Of(s, 0)), 1, FREE);
    assert RefersTo(s, 1, 1);
  }

  /** ialloc marks inode 1; before its own iget, a look-up finds the number, locks and unlocks. */
  lemma LookupFirst(allocs: map<int, int>) returns (states: seq<State>, actions: seq<Action>)
    requires allocs == map[2 := 1]
    ensures Leads(states, actions, Own(Entry(1, 1, true, UNLINKED, -1), UNLINKED, Idle, allocs))
  {
    var w := Entry(0, 0, false, FREE, -1);
    var x := Entry(1, 1, false, FREE, -1);
    var z := Entry(1, 1, true, UNLINKED, 0);
    var s := One(w, FREE, map[], map[]);
    var s1 := One(w, UNLINKED, map[], allocs);
    states, actions := [s], [];
    WriteOne(w, FREE, map[], UNLINKED, map[]);
    assert Leads(states, actions, s) && Next(s, AllocWrite(2, 1, 1), s1);
    hide Leads, Next;
    GetOne(w, UNLINKED, map[], 0, allocs);
    OwnLocks(x, UNLINKED, allocs);
    OwnLoads(x.(lock := 0), UNLINKED, allocs);
    OwnEdits(z, UNLINKED, UNLINKED, allocs);
    var s2 := Own(x, UNLINKED, Idle, allocs);
    var s3 := Own(x.(lock := 0), UNLINKED, Locking, allocs);
    var s4 := Own(z, UNLINKED, Owner, allocs);
    states, actions := Step(states, actions, s, AllocWrite(2, 1, 1), s1);
    states, actions := Step(states, actions, s1, Get(0, 1), s2);
    states, actions := Step(states, actions, s2, Lock(0), s3);
    states, actions := Step(states, actions, s3, Load(0), s4);
    states, actions := Step(states, actions, s4, Unlock(0), Own(z.(lock := -1), UNLINKED, Idle, allocs));
  }

  /** Its iput frees the inode, and the ilock of ialloc's caller panics. */
  lemma LostAlloc() returns (states: seq<State>, actions: seq<Action>, s: State)
    ensures Leads(states, actions, s) && Panics(s, 2)
  {
    var allocs := map[2 := 1];
    var v := Entry(1, 0, false, FREE, -1);
    var lost := One(v, FREE, map[], allocs);
    var got := One(v.(ref := 1), FREE, map[2 := Ref(0, Idle)], map[]);
    AddOne(v, FREE, map[], 2, allocs);
    assert allocs - {2} == map[];
    assert Next(lost, AllocGet(2), got);
    hide Leads, Next;
    states, actions := LookupFirst(allocs);
    states, actions := Put(states, actions, allocs);
    states, actions := PutEnds(states, actions, allocs);
    states, actions := Step(states, actions, lost, AllocGet(2), got);
    s := Move(got, 2, Locking, v.(ref := 1, lock := 2));
    LockMoves(got, 2);
    states, actions := Step(states, actions, got, Lock(2), s);
  }
}
