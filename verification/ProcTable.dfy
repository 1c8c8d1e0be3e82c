/** proc.c: the process table. A step is a stretch of code run under ptable.lock, up to its
    release or to the switch into the scheduler, or one of fork's stores to the slot it has
    reserved, which are made without the lock. */
module ProcTable {

  datatype PState = UNUSED | EMBRYO | SLEEPING | RUNNABLE | RUNNING | ZOMBIE

  /** What a process sleeps on: a slot of the table, in wait, or anything else. */
  datatype Chan = NoChan | Slot(p: int) | Other(x: int)

  datatype Proc = Proc(state: PState, parent: int, chan: Chan, killed: bool, pid: int)

  /** Where a process is in fork: with the slot it has reserved, or not in fork. */
  datatype At = Plain | Forking(np: int)

  /** cpus[c] is the slot CPU c runs, -1 while it runs the scheduler; parent -1 is null. */
  datatype State = State(procs: seq<Proc>, at: seq<At>, cpus: seq<int>, init: int, nextpid: int)

  // ---- the loops over the table ----

  function Wake(q: Proc, chan: Chan): Proc
  {
    if q.state == SLEEPING && q.chan == chan then q.(state := RUNNABLE) else q
  }

  ghost predicate SleepsOn(q: Proc, chan: Chan) { q.state == SLEEPING && q.chan == chan }

  /** Exactly the sleepers on the channel become runnable, and nothing else changes. */
  ghost predicate Woken(procs: seq<Proc>, procs': seq<Proc>, chan: Chan)
  {
    |procs'| == |procs| && forall i | 0 <= i < |procs| ::
      && procs'[i].state == (if SleepsOn(procs[i], chan) then RUNNABLE else procs[i].state)
      && procs'[i] == procs[i].(state := procs'[i].state)
  }

  ghost predicate ZombieChild(procs: seq<Proc>, p: int, i: int)
    requires 0 <= i < |procs|
  {
    procs[i].parent == p && procs[i].state == ZOMBIE
  }

  /** What exit leaves of slot i: its sleeper on the parent is woken, a child goes to init,
      and init is woken if it was given a zombie. */
  function Passed(procs: seq<Proc>, p: int, init: int, i: int, zombies: bool): Proc
    requires 0 <= p < |procs| && 0 <= i < |procs|
  {
    var q := Wake(procs[i], Slot(procs[p].parent));
    var r := if q.parent == p then q.(parent := init) else q;
    var s := if zombies then Wake(r, Slot(init)) else r;
    if i == p then s.(state := ZOMBIE) else s
  }

  ghost predicate Exited(procs: seq<Proc>, procs': seq<Proc>, p: int, init: int)
  {
    0 <= p < |procs| && |procs'| == |procs| &&
    forall i | 0 <= i < |procs| ::
      procs'[i] == Passed(procs, p, init, i, exists k :: 0 <= k < |procs| && ZombieChild(procs, p, k))
  }

  method Wakeup1(a: array<Proc>, chan: Chan)
    modifies a
    ensures Woken(old(a[..]), a[..], chan)
  {
    var i := 0;
    while i < a.Length
      invariant 0 <= i <= a.Length
      invariant forall k | 0 <= k < a.Length :: a[k] == if k < i then Wake(old(a[k]), chan) else old(a[k])
    {
      if a[i].state == SLEEPING && a[i].chan == chan {
        a[i] := a[i].(state := RUNNABLE);
      }
      i := i + 1;
    }
  }

  /** exit's last section, up to the switch. */
  method ExitSection(a: array<Proc>, p: int, init: int)
    requires 0 <= p < a.Length
    modifies a
    ensures Exited(old(a[..]), a[..], p, init)
  {
    ghost var par := Slot(a[p].parent);
    Wakeup1(a, Slot(a[p].parent));
    ghost var b := a[..];
    ghost var zombies := false;
    var i := 0;
    while i < a.Length
      invariant 0 <= i <= a.Length
      invariant zombies <==> exists k :: 0 <= k < i && ZombieChild(b, p, k)
      invariant forall k | 0 <= k < a.Length ::
        a[k] ==
          var r := if k < i && b[k].parent == p then b[k].(parent := init) else b[k];
          if zombies then Wake(r, Slot(init)) else r
    {
      if a[i].parent == p {
        a[i] := a[i].(parent := init);
        if a[i].state == ZOMBIE {
          assert ZombieChild(b, p, i);
          zombies := true;
          Wakeup1(a, Slot(init));
        }
      }
      i := i + 1;
    }
    assert forall k | 0 <= k < a.Length :: ZombieChild(b, p, k) == ZombieChild(old(a[..]), p, k);
    a[p] := a[p].(state := ZOMBIE);
  }

  /** wait's scan: a zombie child, or -1 and whether there are children. */
  method WaitScan(procs: seq<Proc>, p: int) returns (z: int, havekids: bool)
    ensures z >= 0 ==> z < |procs| && ZombieChild(procs, p, z) && forall i | 0 <= i < z :: !ZombieChild(procs, p, i)
    ensures z < 0 ==> z == -1 && (forall i | 0 <= i < |procs| :: !ZombieChild(procs, p, i))
    ensures z < 0 ==> (havekids <==> exists i :: 0 <= i < |procs| && procs[i].parent == p)
  {
    havekids := false;
    var i := 0;
    while i < |procs|
      invariant 0 <= i <= |procs|
      invariant forall k | 0 <= k < i :: !ZombieChild(procs, p, k)
      invariant havekids <==> exists k :: 0 <= k < i && procs[k].parent == p
    {
      if procs[i].parent == p {
        havekids := true;
        if procs[i].state == ZOMBIE {
          return i, havekids;
        }
      }
      i := i + 1;
    }
    return -1, havekids;
  }

  /** allocproc's scan. */
  method FindUnused(procs: seq<Proc>) returns (np: int)
    ensures np >= 0 ==> FirstUnused(procs, np)
    ensures np < 0 ==> forall i | 0 <= i < |procs| :: procs[i].state != UNUSED
  {
    np := 0;
    while np < |procs|
      invariant 0 <= np <= |procs|
      invariant forall i | 0 <= i < np :: procs[i].state != UNUSED
    {
      if procs[np].state == UNUSED {
        return;
      }
      np := np + 1;
    }
    np := -1;
  }

  ghost predicate FirstUnused(procs: seq<Proc>, np: int)
  {
    0 <= np < |procs| && procs[np].state == UNUSED && forall i | 0 <= i < np :: procs[i].state != UNUSED
  }

  // ---- steps ----

  datatype Action =
    | Pick(c: int, p: int)
    | Yield(c: int, p: int)
    | Sleep(c: int, p: int, x: int)
    | Wakeup(x: int)
    | Kill(p: int)
    | Alloc(c: int, p: int, np: int)
    | ForkFail(c: int, p: int)
    | SetParent(c: int, p: int)
    | ForkDone(c: int, p: int)
    | Exit(c: int, p: int)
    | Wait(c: int, p: int, z: int)

  ghost predicate Runs(s: State, c: int, p: int)
  {
    0 <= c < |s.cpus| && s.cpus[c] == p && 0 <= p < |s.procs| && |s.at| == |s.procs|
  }

  ghost predicate HasKids(procs: seq<Proc>, p: int)
  {
    exists i :: 0 <= i < |procs| && procs[i].parent == p
  }

  function Put(s: State, p: int, q: Proc): State
    requires 0 <= p < |s.procs|
  {
    s.(procs := s.procs[p := q])
  }

  ghost predicate Next(s: State, a: Action, s': State)
  {
    match a
    case Pick(c, p) =>
      && 0 <= c < |s.cpus| && s.cpus[c] == -1 && 0 <= p < |s.procs| && s.procs[p].state == RUNNABLE
      && s' == Put(s, p, s.procs[p].(state := RUNNING, chan := NoChan)).(cpus := s.cpus[c := p])
    case Yield(c, p) =>
      Runs(s, c, p) && s' == Put(s, p, s.procs[p].(state := RUNNABLE)).(cpus := s.cpus[c := -1])
    case Sleep(c, p, x) =>
      Runs(s, c, p) && s' == Put(s, p, s.procs[p].(state := SLEEPING, chan := Other(x))).(cpus := s.cpus[c := -1])
    case Wakeup(x) =>
      s' == s.(procs := s'.procs) && Woken(s.procs, s'.procs, Other(x))
    case Kill(p) =>
      && 0 <= p < |s.procs| && (forall i | 0 <= i < p :: s.procs[i].pid != s.procs[p].pid)
      && var q := s.procs[p];
         s' == Put(s, p, q.(killed := true, state := if q.state == SLEEPING then RUNNABLE else q.state))
    case Alloc(c, p, np) =>
      && Runs(s, c, p) && s.at[p] == Plain && FirstUnused(s.procs, np)
      && s' == Put(s, np, s.procs[np].(state := EMBRYO, pid := s.nextpid))
                 .(at := s.at[p := Forking(np)], nextpid := s.nextpid + 1)
    case ForkFail(c, p) =>
      && Runs(s, c, p) && s.at[p].Forking? && 0 <= s.at[p].np < |s.procs| && s.procs[s.at[p].np].parent == -1
      && s' == Put(s, s.at[p].np, s.procs[s.at[p].np].(state := UNUSED)).(at := s.at[p := Plain])
    case SetParent(c, p) =>
      && Runs(s, c, p) && s.at[p].Forking? && 0 <= s.at[p].np < |s.procs| && s.procs[s.at[p].np].parent == -1
      && s' == Put(s, s.at[p].np, s.procs[s.at[p].np].(parent := p))
    case ForkDone(c, p) =>
      && Runs(s, c, p) && s.at[p].Forking? && 0 <= s.at[p].np < |s.procs| && s.procs[s.at[p].np].parent == p
      && s' == Put(s, s.at[p].np, s.procs[s.at[p].np].(state := RUNNABLE)).(at := s.at[p := Plain])
    case Exit(c, p) =>
      && Runs(s, c, p) && s.at[p] == Plain && p != s.init
      && Exited(s.procs, s'.procs, p, s.init) && s' == s.(procs := s'.procs, cpus := s.cpus[c := -1])
    case Wait(c, p, z) =>
      && Runs(s, c, p) && s.at[p] == Plain
      && if z >= 0 then
           && z < |s.procs| && ZombieChild(s.procs, p, z) && (forall i | 0 <= i < z :: !ZombieChild(s.procs, p, i))
           && s' == Put(s, z, s.procs[z].(state := UNUSED, parent := -1, pid := 0, killed := false))
         else
           && (forall i | 0 <= i < |s.procs| :: !ZombieChild(s.procs, p, i))
           && if HasKids(s.procs, p) && !s.procs[p].killed then
                s' == Put(s, p, s.procs[p].(state := SLEEPING, chan := Slot(p))).(cpus := s.cpus[c := -1])
              else s' == s
  }

  // ---- what every step keeps ----

  ghost predicate Live(st: PState)
  {
    st == SLEEPING || st == RUNNABLE || st == RUNNING
  }

  ghost predicate ProcOk(s: State, p: int)
    requires 0 <= p < |s.procs| == |s.at|
  {
    var q := s.procs[p];
    && (q.state == RUNNING <==> p in s.cpus) && (q.state == RUNNING ==> q.chan == NoChan)
    && q.parent != p && (q.state == UNUSED ==> q.parent == -1)
    && (q.state == EMBRYO && q.parent != -1 ==> 0 <= q.parent < |s.at| && s.at[q.parent] == Forking(p))
    && (p != s.init && (Live(q.state) || q.state == ZOMBIE) ==>
          0 <= q.parent < |s.procs| && Live(s.procs[q.parent].state))
    && (p == s.init ==> Live(q.state) && q.parent == -1)
    && (s.at[p].Forking? ==>
          && Live(q.state) && 0 <= s.at[p].np < |s.procs| && s.procs[s.at[p].np].state == EMBRYO
          && (s.procs[s.at[p].np].parent == -1 || s.procs[s.at[p].np].parent == p))
    && (q.state == SLEEPING && q.chan.Slot? ==> q.chan.p == p && s.at[p] == Plain)
  }

  ghost predicate Waiting(s: State, p: int)
    requires 0 <= p < |s.procs|
  {
    s.procs[p].state == SLEEPING && s.procs[p].chan == Slot(p)
  }

  /** A process asleep in wait has a living child to wait for and no dead one. */
  ghost predicate WaiterOk(s: State, p: int)
    requires 0 <= p < |s.procs|
  {
    Waiting(s, p) ==>
      && (forall i | 0 <= i < |s.procs| :: !ZombieChild(s.procs, p, i))
      && (exists i :: 0 <= i < |s.procs| && s.procs[i].parent == p && Live(s.procs[i].state))
  }

  ghost predicate Inv(s: State)
  {
    && |s.at| == |s.procs| && 0 <= s.init < |s.procs|
    && (forall c | 0 <= c < |s.cpus| :: -1 <= s.cpus[c] < |s.procs|)
    && (forall c, d | 0 <= c < d < |s.cpus| && s.cpus[c] != -1 :: s.cpus[c] != s.cpus[d])
    && (forall p {:trigger ProcOk(s, p)} | 0 <= p < |s.procs| :: ProcOk(s, p))
    && (forall p {:trigger WaiterOk(s, p)} | 0 <= p < |s.procs| :: WaiterOk(s, p))
    && (forall p, q | 0 <= p < q < |s.procs| && s.at[p].Forking? :: s.at[p] != s.at[q])
  }

  lemma StepKeeps(s: State, a: Action, s': State)
    requires Inv(s) && Next(s, a, s')
    ensures Inv(s')
  {
    match a
    case Wait(c, p, z) => WaitKeeps(s, c, p, z, s');
    case Exit(c, p) => ExitKeeps(s, c, p, s');
    case Wakeup(x) => WakeupKeeps(s, x, s');
    case Kill(p) => KillKeeps(s, p, s');
    case Pick(c, p) => SwitchKeeps(s, a, c, p, s');
    case Yield(c, p) => SwitchKeeps(s, a, c, p, s');
    case Sleep(c, p, x) => SwitchKeeps(s, a, c, p, s');
    case Alloc(c, p, np) => AllocKeeps(s, c, p, np, s');
    case ForkFail(c, p) => ForkFailKeeps(s, c, p, s');
    case SetParent(c, p) => SetParentKeeps(s, c, p, s');
    case ForkDone(c, p) => ForkDoneKeeps(s, c, p, s');
  }

  lemma InAfter(cpus: seq<int>, c: int, x: int, q: int)
    requires 0 <= c < |cpus| && q != -1
    requires forall c, d | 0 <= c < d < |cpus| && cpus[c] != -1 :: cpus[c] != cpus[d]
    ensures q in cpus[c := x] <==> q == x || (q in cpus && q != cpus[c])
  {
    var after := cpus[c := x];
    if q in cpus && q != cpus[c] {
      var d :| 0 <= d < |cpus| && cpus[d] == q;
      assert after[d] == q;
    }
    assert after[c] == x;
  }

  /** Slot i gives a waiter p no new dead child and leaves it a living one. */
  ghost predicate SameKin(s: State, s': State, p: int, i: int)
    requires 0 <= i < |s.procs| == |s'.procs|
  {
    && (ZombieChild(s'.procs, p, i) ==> ZombieChild(s.procs, p, i))
    && (s.procs[i].parent == p && Live(s.procs[i].state) ==> s'.procs[i].parent == p && Live(s'.procs[i].state))
  }

  lemma WaiterStays(s: State, s': State, p: int)
    requires |s.procs| == |s'.procs| && 0 <= p < |s.procs| && WaiterOk(s, p)
    requires Waiting(s', p) ==>
      Waiting(s, p) && forall i {:trigger SameKin(s, s', p, i)} | 0 <= i < |s.procs| :: SameKin(s, s', p, i)
    ensures WaiterOk(s', p)
  {
    if Waiting(s', p) {
      var i :| 0 <= i < |s.procs| && s.procs[i].parent == p && Live(s.procs[i].state);
      assert SameKin(s, s', p, i);
      forall k | 0 <= k < |s.procs| ensures !ZombieChild(s'.procs, p, k) {
        assert SameKin(s, s', p, k);
      }
    }
  }

  /** One process across a switch on CPU c to or from p. */
  lemma SwitchOne(s: State, a: Action, c: int, p: int, s': State, q: int)
    requires Next(s, a, s') && (a == Pick(c, p) || a == Yield(c, p) || (a.Sleep? && a == Sleep(c, p, a.x)))
    requires forall c, d | 0 <= c < d < |s.cpus| && s.cpus[c] != -1 :: s.cpus[c] != s.cpus[d]
    requires 0 <= p < |s.procs| == |s.at| && ProcOk(s, p) && 0 <= q < |s.procs| && ProcOk(s, q) && WaiterOk(s, q)
    ensures |s'.at| == |s'.procs| == |s.procs| && ProcOk(s', q) && WaiterOk(s', q)
  {
    InAfter(s.cpus, c, s'.cpus[c], q);
    WaiterStays(s, s', q);
  }

  lemma SwitchCpus(s: State, a: Action, c: int, p: int, s': State)
    requires Next(s, a, s') && (a == Pick(c, p) || a == Yield(c, p) || (a.Sleep? && a == Sleep(c, p, a.x)))
    requires 0 <= p < |s.procs| == |s.at| && ProcOk(s, p)
    requires forall c | 0 <= c < |s.cpus| :: -1 <= s.cpus[c] < |s.procs|
    requires forall c, d | 0 <= c < d < |s.cpus| && s.cpus[c] != -1 :: s.cpus[c] != s.cpus[d]
    ensures forall c | 0 <= c < |s'.cpus| :: -1 <= s'.cpus[c] < |s.procs|
    ensures forall c, d | 0 <= c < d < |s'.cpus| && s'.cpus[c] != -1 :: s'.cpus[c] != s'.cpus[d]
  {
  }

  lemma SwitchKeeps(s: State, a: Action, c: int, p: int, s': State)
    requires Inv(s) && Next(s, a, s') && 0 <= p < |s.procs|
    requires a == Pick(c, p) || a == Yield(c, p) || (a.Sleep? && a == Sleep(c, p, a.x))
    ensures Inv(s')
  {
    hide ProcOk, WaiterOk;
    assert ProcOk(s, p);
    SwitchCpus(s, a, c, p, s');
    forall q | 0 <= q < |s.procs| ensures ProcOk(s', q) && WaiterOk(s', q) {
      assert ProcOk(s, q) && WaiterOk(s, q);
      SwitchOne(s, a, c, p, s', q);
    }
  }

  lemma WakeupKeeps(s: State, x: int, s': State)
    requires Inv(s) && Next(s, Wakeup(x), s')
    ensures Inv(s')
  {
    forall q | 0 <= q < |s.procs| ensures ProcOk(s', q) && WaiterOk(s', q) {
      assert ProcOk(s, q) && WaiterOk(s, q);
      WaiterStays(s, s', q);
    }
  }

  lemma KillKeeps(s: State, p: int, s': State)
    requires Inv(s) && Next(s, Kill(p), s')
    ensures Inv(s')
  {
    forall q | 0 <= q < |s.procs| ensures ProcOk(s', q) && WaiterOk(s', q) {
      assert ProcOk(s, q) && WaiterOk(s, q);
      WaiterStays(s, s', q);
    }
  }

  lemma AllocKeeps(s: State, c: int, p: int, np: int, s': State)
    requires Inv(s) && Next(s, Alloc(c, p, np), s')
    ensures Inv(s')
  {
    assert ProcOk(s, p) && ProcOk(s, np);
    forall q | 0 <= q < |s.procs| ensures s.at[q] != Forking(np) {
      assert ProcOk(s, q);
    }
    forall q | 0 <= q < |s.procs| ensures ProcOk(s', q) && WaiterOk(s', q) {
      assert ProcOk(s, q) && WaiterOk(s, q);
      WaiterStays(s, s', q);
    }
  }

  lemma ForkFailKeeps(s: State, c: int, p: int, s': State)
    requires Inv(s) && Next(s, ForkFail(c, p), s')
    ensures Inv(s')
  {
    assert ProcOk(s, p) && ProcOk(s, s.at[p].np);
    forall q | 0 <= q < |s.procs| ensures ProcOk(s', q) && WaiterOk(s', q) {
      assert ProcOk(s, q) && WaiterOk(s, q);
      WaiterStays(s, s', q);
    }
  }

  lemma SetParentKeeps(s: State, c: int, p: int, s': State)
    requires Inv(s) && Next(s, SetParent(c, p), s')
    ensures Inv(s')
  {
    assert ProcOk(s, p) && ProcOk(s, s.at[p].np);
    forall q | 0 <= q < |s.procs| ensures ProcOk(s', q) && WaiterOk(s', q) {
      assert ProcOk(s, q) && WaiterOk(s, q);
      WaiterStays(s, s', q);
    }
  }

  lemma ForkDoneKeeps(s: State, c: int, p: int, s': State)
    requires Inv(s) && Next(s, ForkDone(c, p), s')
    ensures Inv(s')
  {
    assert ProcOk(s, p) && ProcOk(s, s.at[p].np);
    forall q | 0 <= q < |s.procs| ensures ProcOk(s', q) && WaiterOk(s', q) {
      assert ProcOk(s, q) && WaiterOk(s, q);
      WaiterStays(s, s', q);
    }
  }

  /** What exit can do to a slot other than the exiting one. */
  ghost predicate Left(q: Proc, r: Proc, p: int, init: int)
  {
    && r.parent == (if q.parent == p then init else q.parent) && r.chan == q.chan
    && (r.state == q.state || (q.state == SLEEPING && r.state == RUNNABLE))
  }

  lemma ExitSummary(s: State, c: int, p: int, s': State)
    requires Inv(s) && Next(s, Exit(c, p), s')
    ensures forall i | 0 <= i < |s.procs| && i != p :: Left(s.procs[i], s'.procs[i], p, s.init)
    ensures s'.procs[p].state == ZOMBIE && s'.procs[p].parent == s.procs[p].parent
  {
    assert ProcOk(s, p);
  }

  lemma ExitProc(s: State, c: int, p: int, s': State, q: int)
    requires |s.at| == |s.procs| == |s'.procs| && 0 <= s.init < |s.procs| && Runs(s, c, p) && p != s.init
    requires s.at[p] == Plain
    requires s' == s.(procs := s'.procs, cpus := s.cpus[c := -1])
    requires forall c, d | 0 <= c < d < |s.cpus| && s.cpus[c] != -1 :: s.cpus[c] != s.cpus[d]
    requires forall i | 0 <= i < |s.procs| && i != p :: Left(s.procs[i], s'.procs[i], p, s.init)
    requires s'.procs[p].state == ZOMBIE && s'.procs[p].parent == s.procs[p].parent
    requires ProcOk(s, p) && ProcOk(s, s.init) && 0 <= q < |s.procs| && ProcOk(s, q)
    ensures ProcOk(s', q)
  {
    InAfter(s.cpus, c, -1, q);
  }

  lemma ExitKeeps(s: State, c: int, p: int, s': State)
    requires Inv(s) && Next(s, Exit(c, p), s')
    ensures Inv(s')
  {
    ExitSummary(s, c, p, s');
    assert ProcOk(s, p) && ProcOk(s, s.init);
    forall q | 0 <= q < |s.procs| ensures ProcOk(s', q) {
      assert ProcOk(s, q);
      ExitProc(s, c, p, s', q);
    }
    forall q | 0 <= q < |s.procs| ensures WaiterOk(s', q) {
      assert ProcOk(s, q) && WaiterOk(s, q);
      if Waiting(s', q) { ExitWaiter(s, c, p, s', q); }
      WaiterStays(s, s', q);
    }
  }

  /** Who still waits after an exit is not the parent, nor init if it was given a zombie. */
  lemma ExitWaiter(s: State, c: int, p: int, s': State, q: int)
    requires Inv(s) && Next(s, Exit(c, p), s') && 0 <= q < |s.procs| && Waiting(s', q)
    ensures Waiting(s, q) && forall i {:trigger SameKin(s, s', q, i)} | 0 <= i < |s.procs| :: SameKin(s, s', q, i)
  {
    assert ProcOk(s, p) && ProcOk(s, q);
    var zombies := exists k :: 0 <= k < |s.procs| && ZombieChild(s.procs, p, k);
    assert s'.procs[q] == Passed(s.procs, p, s.init, q, zombies);
    assert q != s.procs[p].parent && (zombies ==> q != s.init);
    forall i | 0 <= i < |s.procs| ensures SameKin(s, s', q, i) {
      assert s'.procs[i] == Passed(s.procs, p, s.init, i, zombies);
      assert ZombieChild(s.procs, p, i) ==> zombies;
    }
  }

  lemma WaitKeeps(s: State, c: int, p: int, z: int, s': State)
    requires Inv(s) && Next(s, Wait(c, p, z), s')
    ensures Inv(s')
  {
    if z >= 0 {
      assert ProcOk(s, p);
      ReapKeeps(s, p, z, s');
    } else if HasKids(s.procs, p) && !s.procs[p].killed {
      assert ProcOk(s, p);
      forall q | 0 <= q < |s.procs| ensures ProcOk(s', q) && WaiterOk(s', q) {
        assert ProcOk(s, q) && WaiterOk(s, q);
        InAfter(s.cpus, c, -1, q);
        if q == p {
          WaitSleeps(s, c, p, z, s');
        } else {
          WaiterStays(s, s', q);
        }
      }
    }
  }

  lemma ReapKeeps(s: State, p: int, z: int, s': State)
    requires Inv(s) && 0 <= z < |s.procs| && 0 <= p < |s.procs| && s.procs[p].state == RUNNING
    requires ZombieChild(s.procs, p, z)
    requires s' == Put(s, z, s.procs[z].(state := UNUSED, parent := -1, pid := 0, killed := false))
    ensures Inv(s')
  {
    assert ProcOk(s, z);
    forall q | 0 <= q < |s.procs| ensures ProcOk(s', q) && WaiterOk(s', q) {
      assert ProcOk(s, q) && WaiterOk(s, q);
      WaiterStays(s, s', q);
    }
  }

  lemma WaitSleeps(s: State, c: int, p: int, z: int, s': State)
    requires Inv(s) && Next(s, Wait(c, p, z), s')
    ensures WaiterOk(s', p)
  {
    assert ProcOk(s, p);
    if Waiting(s', p) {
      var k :| 0 <= k < |s.procs| && s.procs[k].parent == p;
      assert ProcOk(s, k) && !ZombieChild(s.procs, p, k);
      assert s'.procs[k].parent == p && Live(s'.procs[k].state);
      forall i | 0 <= i < |s.procs| ensures !ZombieChild(s'.procs, p, i) {
        assert !ZombieChild(s.procs, p, i);
      }
    }
  }

  // ---- who wakes whom ----

  /** The channels that a step calls wakeup on. */
  ghost function WakesUp(s: State, a: Action): set<Chan>
  {
    match a
    case Wakeup(x) => {Other(x)}
    case Exit(c, p) =>
      if 0 <= p < |s.procs| then
        {Slot(s.procs[p].parent)} +
        (if exists k :: 0 <= k < |s.procs| && ZombieChild(s.procs, p, k) then {Slot(s.init)} else {})
      else {}
    case _ => {}
  }

  /** After a wakeup nobody sleeps on that channel. */
  lemma NobodySleepsOn(s: State, a: Action, s': State, chan: Chan, i: int)
    requires Inv(s) && Next(s, a, s') && chan in WakesUp(s, a) && 0 <= i < |s'.procs|
    ensures !SleepsOn(s'.procs[i], chan)
  {
  }

  lemma RunnersRun(s: State)
    requires Inv(s)
    ensures forall c, p | Runs(s, c, p) ::
      && s.procs[p].state == RUNNING
      && (s.at[p].Forking? ==> 0 <= s.at[p].np < |s.procs| && s.procs[s.at[p].np].state == EMBRYO)
  {
    forall c, p | Runs(s, c, p)
      ensures s.procs[p].state == RUNNING
      ensures s.at[p].Forking? ==> 0 <= s.at[p].np < |s.procs| && s.procs[s.at[p].np].state == EMBRYO
    {
      assert ProcOk(s, p);
    }
  }

  /** A sleeper gets up exactly if its channel is woken or it is killed; otherwise it sleeps on. */
  lemma GetsUpIff(s: State, a: Action, s': State, chan: Chan, i: int)
    requires Inv(s) && Next(s, a, s') && 0 <= i < |s.procs| && SleepsOn(s.procs[i], chan)
    ensures |s'.procs| == |s.procs|
    ensures
      if chan in WakesUp(s, a) || a == Kill(i) then s'.procs[i].state == RUNNABLE else SleepsOn(s'.procs[i], chan)
  {
    RunnersRun(s);
  }

  /** A process falls asleep exactly by sleep, on the channel it names, or in wait, on its own slot. */
  lemma FallsAsleepIff(s: State, a: Action, s': State, chan: Chan, i: int)
    requires Inv(s) && Next(s, a, s') && 0 <= i < |s.procs| && s.procs[i].state != SLEEPING
    ensures |s'.procs| == |s.procs|
    ensures SleepsOn(s'.procs[i], chan) <==>
      || (a.Sleep? && a.p == i && chan == Other(a.x))
      || (a.Wait? && a.p == i && a.z < 0 && chan == Slot(i) && HasKids(s.procs, i) && !s.procs[i].killed)
  {
    RunnersRun(s);
  }

  /** A slot is marked killed exactly by kill, until wait gives the slot up. */
  lemma KilledIff(s: State, a: Action, s': State, i: int)
    requires Next(s, a, s') && 0 <= i < |s.procs|
    ensures |s'.procs| == |s.procs|
    ensures s'.procs[i].killed <==> a == Kill(i) || (s.procs[i].killed && !(a.Wait? && a.z == i))
  {
  }

  // ---- every run ----

  /** After userinit: slot 0 is init, the others are zero. */
  ghost predicate Boot(s: State)
  {
    && 0 < |s.procs| == |s.at| && s.init == 0 && s.nextpid == 2
    && s.procs[0] == Proc(RUNNABLE, -1, NoChan, false, 1)
    && (forall p | 0 < p < |s.procs| :: s.procs[p] == Proc(UNUSED, -1, NoChan, false, 0))
    && (forall p | 0 <= p < |s.procs| :: s.at[p] == Plain)
    && (forall c | 0 <= c < |s.cpus| :: s.cpus[c] == -1)
  }

  ghost predicate Run(states: seq<State>, actions: seq<Action>)
  {
    && |states| == |actions| + 1 && Boot(states[0])
    && (forall i | 0 <= i < |actions| :: Next(states[i], actions[i], states[i + 1]))
  }

  /** p's parent can collect it. */
  ghost predicate Parented(s: State, p: int)
    requires 0 <= p < |s.procs|
  {
    var q := s.procs[p].parent;
    && 0 <= q < |s.procs| && q != p
    && s.procs[q].state != UNUSED && s.procs[q].state != EMBRYO && s.procs[q].state != ZOMBIE
  }

  ghost predicate Sound(s: State)
  {
    && (forall p | 0 <= p < |s.procs| :: SoundProc(s, p))
    && (forall c, d | 0 <= c < |s.cpus| && 0 <= d < |s.cpus| && s.cpus[c] == s.cpus[d] != -1 :: c == d)
  }

  ghost predicate SoundProc(s: State, p: int)
    requires 0 <= p < |s.procs|
  {
    && (s.procs[p].state == RUNNING <==> p in s.cpus) && (s.procs[p].state == RUNNING ==> s.procs[p].chan == NoChan)
    && (p != s.init && s.procs[p].state != UNUSED && s.procs[p].state != EMBRYO ==> Parented(s, p))
    && (Waiting(s, p) ==> forall i | 0 <= i < |s.procs| :: !ZombieChild(s.procs, p, i))
    && (Waiting(s, p) ==> exists i :: 0 <= i < |s.procs| && s.procs[i].parent == p && Live(s.procs[i].state))
  }

  lemma InvSound(s: State)
    requires Inv(s)
    ensures Sound(s)
  {
    forall p | 0 <= p < |s.procs| ensures SoundProc(s, p) {
      assert ProcOk(s, p) && WaiterOk(s, p);
    }
  }

  lemma {:induction false} RunKeeps(states: seq<State>, actions: seq<Action>, k: nat)
    requires Run(states, actions) && k < |states|
    ensures Inv(states[k])
  {
    if k == 0 {
      forall p | 0 <= p < |states[0].procs| ensures ProcOk(states[0], p) && WaiterOk(states[0], p) {
      }
    } else {
      RunKeeps(states, actions, k - 1);
      assert Next(states[k - 1], actions[k - 1], states[k - 1 + 1]);
      StepKeeps(states[k - 1], actions[k - 1], states[k]);
    }
  }

  /** In every state of every run: a slot is RUNNING exactly when one CPU runs it, every process
      but init has a living parent, and whoever is asleep in wait has a living child and no
      dead one. */
  lemma EveryReachableState(states: seq<State>, actions: seq<Action>, k: nat)
    requires Run(states, actions) && k < |states|
    ensures Sound(states[k])
  {
    RunKeeps(states, actions, k);
    InvSound(states[k]);
  }

  /** In every run, a sleeper that nobody wakes or kills sleeps on. */
  lemma {:induction false} SleepsUntilWoken(states: seq<State>, actions: seq<Action>, k: nat, m: nat, i: int,
                                            chan: Chan)
    requires Run(states, actions) && k <= m < |states|
    requires 0 <= i < |states[k].procs| && SleepsOn(states[k].procs[i], chan)
    requires forall j | k <= j < m :: chan !in WakesUp(states[j], actions[j]) && actions[j] != Kill(i)
    ensures i < |states[m].procs| && SleepsOn(states[m].procs[i], chan)
    decreases m
  {
    hide Next, Inv, SleepsOn, WakesUp;
    if k < m {
      SleepsUntilWoken(states, actions, k, m - 1, i, chan);
      RunKeeps(states, actions, m - 1);
      assert Next(states[m - 1], actions[m - 1], states[m - 1 + 1]);
      GetsUpIff(states[m - 1], actions[m - 1], states[m], chan, i);
    }
  }

  // ---- pids and kill ----

  /** A process has a pid of its own; a slot that is not in use may keep an old one. */
  ghost predicate PidsOk(s: State)
  {
    && s.nextpid > 0
    && (forall p | 0 <= p < |s.procs| :: 0 <= s.procs[p].pid < s.nextpid)
    && (forall p | 0 <= p < |s.procs| && s.procs[p].state != UNUSED :: s.procs[p].pid != 0)
    && (forall p, q | 0 <= p < q < |s.procs| && s.procs[p].pid != 0 :: s.procs[p].pid != s.procs[q].pid)
  }

  lemma PidOne(s: State, a: Action, s': State, i: int)
    requires Inv(s) && Next(s, a, s') && 0 <= i < |s.procs|
    ensures |s'.procs| == |s.procs| && s'.nextpid == s.nextpid + if a.Alloc? then 1 else 0
    ensures s'.procs[i].pid ==
      if a.Alloc? && a.np == i then s.nextpid else if a.Wait? && a.z == i then 0 else s.procs[i].pid
    ensures s'.procs[i].state != UNUSED && !(a.Alloc? && a.np == i) ==>
      s.procs[i].state != UNUSED && !(a.Wait? && a.z == i)
  {
    RunnersRun(s);
  }

  lemma PidStep(s: State, a: Action, s': State)
    requires Inv(s) && PidsOk(s) && Next(s, a, s')
    ensures PidsOk(s')
  {
    hide Next, Inv;
    forall i | 0 <= i < |s.procs|
      ensures |s'.procs| == |s.procs| && s'.nextpid == s.nextpid + if a.Alloc? then 1 else 0
      ensures s'.procs[i].pid ==
        if a.Alloc? && a.np == i then s.nextpid else if a.Wait? && a.z == i then 0 else s.procs[i].pid
      ensures s'.procs[i].state != UNUSED && !(a.Alloc? && a.np == i) ==>
        s.procs[i].state != UNUSED && !(a.Wait? && a.z == i)
    {
      PidOne(s, a, s', i);
    }
    SameSlots(s, a, s');
  }

  lemma SameSlots(s: State, a: Action, s': State)
    requires Inv(s) && Next(s, a, s')
    ensures |s'.procs| == |s.procs| && s'.nextpid >= s.nextpid
  {
  }

  /** In every run no two processes have the same pid, and none has pid 0. */
  lemma {:induction false} EveryPid(states: seq<State>, actions: seq<Action>, k: nat)
    requires Run(states, actions) && k < |states|
    ensures PidsOk(states[k])
  {
    hide Next, Inv;
    if k > 0 {
      EveryPid(states, actions, k - 1);
      RunKeeps(states, actions, k - 1);
      assert Next(states[k - 1], actions[k - 1], states[k - 1 + 1]);
      PidStep(states[k - 1], actions[k - 1], states[k]);
    }
  }

  /** In every run, while wait does not give the slot up: it is marked killed exactly if it was
      before, or kill has found it since. */
  lemma {:induction false} KilledSince(states: seq<State>, actions: seq<Action>, k: nat, m: nat, i: int)
    requires Run(states, actions) && k <= m < |states| && 0 <= i < |states[k].procs|
    requires forall j | k <= j < m :: !(actions[j].Wait? && actions[j].z == i)
    ensures i < |states[m].procs|
    ensures states[m].procs[i].killed <==> states[k].procs[i].killed || exists j :: k <= j < m && actions[j] == Kill(i)
    decreases m
  {
    hide Next;
    if k < m {
      KilledSince(states, actions, k, m - 1, i);
      assert Next(states[m - 1], actions[m - 1], states[m - 1 + 1]);
      KilledIff(states[m - 1], actions[m - 1], states[m], i);
    }
  }

  /** Two slots and one CPU: the second slot is q, and init, on the CPU, is at `at`. */
  function Two(q: Proc, at: At, nextpid: int): State
  {
    State([Proc(RUNNING, -1, NoChan, false, 1), q], [at, Plain], [0], 0, nextpid)
  }

  lemma KillsUnused()
    ensures Next(Two(Proc(UNUSED, -1, NoChan, false, 0), Plain, 2), Kill(1),
                 Two(Proc(UNUSED, -1, NoChan, true, 0), Plain, 2))
    ensures Next(Two(Proc(UNUSED, -1, NoChan, true, 0), Plain, 2), Alloc(0, 0, 1),
                 Two(Proc(EMBRYO, -1, NoChan, true, 2), Forking(1), 3))
  {
  }

  lemma ForksKilled()
    ensures Next(Two(Proc(EMBRYO, -1, NoChan, true, 2), Forking(1), 3), SetParent(0, 0),
                 Two(Proc(EMBRYO, 0, NoChan, true, 2), Forking(1), 3))
    ensures Next(Two(Proc(EMBRYO, 0, NoChan, true, 2), Forking(1), 3), ForkDone(0, 0),
                 Two(Proc(RUNNABLE, 0, NoChan, true, 2), Plain, 3))
  {
  }

  lemma PicksInit() returns (s: State)
    ensures Boot(s) && Next(s, Pick(0, 0), Two(Proc(UNUSED, -1, NoChan, false, 0), Plain, 2))
  {
    s := State([Proc(RUNNABLE, -1, NoChan, false, 1), Proc(UNUSED, -1, NoChan, false, 0)], [Plain, Plain], [-1], 0, 2);
  }

  /** kill looks at slots that are not in use, too: after kill(0) the next process is born killed. */
  lemma BornKilled() returns (states: seq<State>, actions: seq<Action>)
    ensures Run(states, actions) && |actions| == 5 && actions[1] == Kill(1) && actions[2] == Alloc(0, 0, 1)
    ensures |states[1].procs| == 2 && states[1].procs[1].state == UNUSED && states[1].procs[1].pid == 0
    ensures |states[5].procs| == 2 && states[5].procs[1].state == RUNNABLE && states[5].procs[1].killed
  {
    hide Next;
    var s := PicksInit();
    KillsUnused();
    ForksKilled();
    states := [s, Two(Proc(UNUSED, -1, NoChan, false, 0), Plain, 2), Two(Proc(UNUSED, -1, NoChan, true, 0), Plain, 2),
               Two(Proc(EMBRYO, -1, NoChan, true, 2), Forking(1), 3),
               Two(Proc(EMBRYO, 0, NoChan, true, 2), Forking(1), 3),
               Two(Proc(RUNNABLE, 0, NoChan, true, 2), Plain, 3)];
    actions := [Pick(0, 0), Kill(1), Alloc(0, 0, 1), SetParent(0, 0), ForkDone(0, 0)];
  }

  /** The exit of any child wakes the parent that waits for it. */
  lemma ChildExitWakes(s: State, c: int, q: int, s': State, p: int)
    requires Inv(s) && 0 <= p < |s.procs| && Waiting(s, p) && Next(s, Exit(c, q), s') && s.procs[q].parent == p
    ensures s'.procs[p].state == RUNNABLE
  {
    assert ProcOk(s, q);
    var zombies := exists k :: 0 <= k < |s.procs| && ZombieChild(s.procs, q, k);
    assert s'.procs[p] == Passed(s.procs, q, s.init, p, zombies);
  }
}
