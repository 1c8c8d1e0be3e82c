/** proc.c: sleep and wakeup, step by step. The processes share a spinlock lk, the caller's, and
    ptable.lock. `cond` holds the channels whose sleepers have something to do; `owed` those of
    them that lk's holder has not called wakeup for since they came true. */
module Monitor {

  /** Where a process is: outside lk; holding it; in sleep on ch (wanting ptable.lock, holding
      both locks, holding ptable.lock alone, asleep); woken and on its way back to lk; in
      wakeup on ch (wanting ptable.lock, at slot i of the scan). */
  datatype Pc =
    | Out | In
    | Sl1(ch: int) | Sl2(ch: int) | Sl3(ch: int) | Asleep(ch: int) | Ready
    | Wk1(ch: int) | Wk2(ch: int, i: int)

  datatype Mon = Mon(pc: seq<Pc>, lk: int, pt: int, cond: set<int>, owed: set<int>)

  datatype Act =
    | Acquire(p: int)
    | Change(p: int, now: set<int>)
    | Release(p: int)
    | Sleep(p: int, ch: int)
    | SleepLock(p: int)
    | SleepDrop(p: int)
    | SleepSwitch(p: int)
    | Rouse(p: int)
    | Wakeup(p: int, ch: int)
    | WakeLock(p: int)
    | WakeOne(p: int)
    | WakeDone(p: int)

  /** A step inside sleep or wakeup. */
  predicate InnerStep(a: Act)
  {
    a.SleepLock? || a.SleepDrop? || a.SleepSwitch? || a.WakeLock? || a.WakeOne? || a.WakeDone?
  }

  ghost predicate Enabled(m: Mon, a: Act)
  {
    && 0 <= a.p < |m.pc|
    && var c := m.pc[a.p];
       match a
       case Acquire(p) => (c == Out || c == Ready) && m.lk == -1
       case Change(p, now) => c == In
       case Release(p) => c == In
       case Sleep(p, ch) => c == In
       case SleepLock(p) => c.Sl1? && m.pt == -1
       case SleepDrop(p) => c.Sl2?
       case SleepSwitch(p) => c.Sl3?
       case Rouse(p) => c.Asleep? && m.pt == -1
       case Wakeup(p, ch) => c == In
       case WakeLock(p) => c.Wk1? && m.pt == -1
       case WakeOne(p) => c.Wk2? && 0 <= c.i < |m.pc|
       case WakeDone(p) => c.Wk2? && c.i == |m.pc|
  }

  function To(m: Mon, p: int, c: Pc): Mon
    requires 0 <= p < |m.pc|
  {
    m.(pc := m.pc[p := c])
  }

  ghost function Do(m: Mon, a: Act): (r: Mon)
    requires Enabled(m, a)
    ensures |r.pc| == |m.pc|
  {
    var c := m.pc[a.p];
    match a
    case Acquire(p) => To(m, p, In).(lk := p)
    case Change(p, now) => m.(cond := now, owed := (m.owed + (now - m.cond)) * now)
    case Release(p) => To(m, p, Out).(lk := -1, owed := {})
    case Sleep(p, ch) => To(m, p, Sl1(ch))
    case SleepLock(p) => To(m, p, Sl2(c.ch)).(pt := p)
    case SleepDrop(p) => To(m, p, Sl3(c.ch)).(lk := -1)
    case SleepSwitch(p) => To(m, p, Asleep(c.ch)).(pt := -1)
    case Rouse(p) => To(m, p, Ready)
    case Wakeup(p, ch) => To(m, p, Wk1(ch))
    case WakeLock(p) => To(m, p, Wk2(c.ch, 0)).(pt := p)
    case WakeOne(p) =>
      var m' := if m.pc[c.i] == Asleep(c.ch) then To(m, c.i, Ready) else m;
      To(m', p, Wk2(c.ch, c.i + 1))
    case WakeDone(p) => To(m, p, In).(pt := -1, owed := m.owed - {c.ch})
  }

  ghost predicate Sleeps(c: Pc) { c.Sl3? || c.Asleep? }

  /** What the callers of sleep and release must see to: sleep only if there is nothing to do,
      and do not give lk away owing a wakeup to somebody. */
  ghost predicate Disciplined(m: Mon, a: Act)
  {
    && (a.Release? ==> forall q | 0 <= q < |m.pc| && Sleeps(m.pc[q]) :: m.pc[q].ch !in m.owed)
    && (a.Sleep? ==> m.owed == {} && a.ch !in m.cond)
  }

  ghost predicate HoldsLk(c: Pc) { c == In || c.Sl1? || c.Sl2? || c.Wk1? || c.Wk2? }

  ghost predicate HoldsPt(c: Pc) { c.Sl2? || c.Sl3? || c.Wk2? }

  ghost predicate PcOk(m: Mon, p: int)
    requires 0 <= p < |m.pc|
  {
    var c := m.pc[p];
    && (HoldsLk(c) <==> m.lk == p) && (HoldsPt(c) <==> m.pt == p)
    && (c.Sl1? || c.Sl2? ==> m.owed == {} && c.ch !in m.cond)
    && (Sleeps(c) && c.ch in m.cond ==> c.ch in m.owed)
    && (c.Wk2? ==> 0 <= c.i <= |m.pc| && forall q | 0 <= q < c.i :: m.pc[q] != Asleep(c.ch))
  }

  ghost predicate Inv(m: Mon)
  {
    && -1 <= m.lk < |m.pc| && -1 <= m.pt < |m.pc|
    && m.owed <= m.cond && (m.lk == -1 ==> m.owed == {})
    && forall p {:trigger PcOk(m, p)} | 0 <= p < |m.pc| :: PcOk(m, p)
  }

  lemma StepKeeps(m: Mon, a: Act)
    requires Inv(m) && Enabled(m, a) && Disciplined(m, a)
    ensures Inv(Do(m, a))
  {
    var m' := Do(m, a);
    assert PcOk(m, a.p);
    forall q | 0 <= q < |m.pc| ensures PcOk(m', q) {
      assert PcOk(m, q);
    }
  }

  /** The spinlock has one holder, whatever the callers do. */
  ghost predicate OneHolder(m: Mon)
  {
    forall p | 0 <= p < |m.pc| :: HoldsLk(m.pc[p]) <==> m.lk == p
  }

  lemma HolderKeeps(m: Mon, a: Act)
    requires OneHolder(m) && Enabled(m, a)
    ensures OneHolder(Do(m, a))
    ensures forall q | 0 <= q < |m.pc| && q != a.p ::
      Do(m, a).pc[q] == m.pc[q] || (m.pc[q].Asleep? && Do(m, a).pc[q] == Ready)
  {
  }

  /** A step by p does nothing to another process but wake it. */
  lemma OtherProcess(m: Mon, a: Act, q: int)
    requires Enabled(m, a) && PcOk(m, a.p) && 0 <= q < |m.pc| && q != a.p && PcOk(m, q)
    ensures
      var m' := Do(m, a);
      && (m'.pc[q] == m.pc[q] || (m.pc[q].Asleep? && m'.pc[q] == Ready))
      && (m'.lk == q <==> m.lk == q) && (m.lk == q ==> m'.owed == m.owed && !a.Change?)
  {
  }

  /** A sleeper gets up exactly when a wakeup on its channel comes to its slot, or by a kill. */
  lemma WokenIff(m: Mon, a: Act, q: int, ch: int)
    requires Enabled(m, a) && 0 <= q < |m.pc| && m.pc[q] == Asleep(ch)
    ensures
      if a == Rouse(q) || (a.WakeOne? && m.pc[a.p] == Wk2(ch, q)) then Do(m, a).pc[q] == Ready
      else Do(m, a).pc[q] == Asleep(ch)
  {
  }

  /** With lk free, nobody sleeps who has something to do. */
  lemma NoLostWakeup(m: Mon, p: int)
    requires Inv(m) && m.lk == -1 && 0 <= p < |m.pc|
    ensures Sleeps(m.pc[p]) ==> m.pc[p].ch !in m.cond
  {
    assert PcOk(m, p);
  }

  /** For release the rule is exact: breaking it loses a wakeup. */
  lemma ReleaseIff(m: Mon, p: int)
    requires Inv(m) && Enabled(m, Release(p))
    ensures
      var m' := Do(m, Release(p));
      Disciplined(m, Release(p)) <==> forall q | 0 <= q < |m'.pc| && Sleeps(m'.pc[q]) :: m'.pc[q].ch !in m'.cond
  {
    var m' := Do(m, Release(p));
    forall q | 0 <= q < |m.pc| && Sleeps(m.pc[q])
      ensures m'.pc[q] == m.pc[q] && (m.pc[q].ch in m.owed <==> m.pc[q].ch in m.cond)
    {
      assert PcOk(m, q);
    }
    if forall q | 0 <= q < |m'.pc| && Sleeps(m'.pc[q]) :: m'.pc[q].ch !in m'.cond {
      forall q | 0 <= q < |m.pc| && Sleeps(m.pc[q]) ensures m.pc[q].ch !in m.owed {
        assert m'.pc[q] == m.pc[q];
      }
    }
  }

  lemma Start(m: Mon)
    requires m.lk == -1 && m.pt == -1 && m.owed == {} && forall p | 0 <= p < |m.pc| :: m.pc[p] == Out
    ensures Inv(m)
  {
    assert forall p | 0 <= p < |m.pc| :: PcOk(m, p);
  }
}

/** sleeplock.c over sleep and wakeup: any number of processes, every interleaving. */
module SleepLock {
  import opened Monitor

  /** Where a process is in acquiresleep and releasesleep. */
  datatype Pos =
    | Idle | AcqEnter | Testing | Napping | AcqLeave
    | Holding | RelEnter | Clearing | Cleared | Waking | RelLeave

  datatype State = State(m: Mon, locked: bool, owner: int, pos: seq<Pos>)

  datatype Action =
    | CallAcquire(p: int)
    | Enter(p: int)
    | TestBusy(p: int)
    | TestFree(p: int)
    | Leave(p: int)
    | CallRelease(p: int)
    | Clear(p: int)
    | CallWakeup(p: int)
    | Inside(p: int, a: Act)
    | Kill(p: int)

  /** The monitor step an action makes, if any. */
  function Inner(s: State, a: Action): (r: seq<Act>)
  {
    match a
    case CallAcquire(p) => []
    case Enter(p) => [Acquire(p)]
    case TestBusy(p) => [Sleep(p, 0)]
    case TestFree(p) => [Change(p, {})]
    case Leave(p) => [Release(p)]
    case CallRelease(p) => []
    case Clear(p) => [Change(p, {0})]
    case CallWakeup(p) => [Wakeup(p, 0)]
    case Inside(p, act) => [act]
    case Kill(p) => [Rouse(p)]
  }

  ghost predicate Can(s: State, a: Action)
  {
    && 0 <= a.p < |s.pos| == |s.m.pc|
    && (Inner(s, a) != [] ==> Enabled(s.m, Inner(s, a)[0]))
    && match a
       case CallAcquire(p) => s.pos[p] == Idle
       case Enter(p) => s.pos[p] == AcqEnter || s.pos[p] == RelEnter || (s.pos[p] == Napping && s.m.pc[p] == Ready)
       case TestBusy(p) => s.pos[p] == Testing && s.locked
       case TestFree(p) => s.pos[p] == Testing && !s.locked
       case Leave(p) => s.pos[p] == AcqLeave || s.pos[p] == RelLeave
       case CallRelease(p) => s.pos[p] == Holding
       case Clear(p) => s.pos[p] == Clearing
       case CallWakeup(p) => s.pos[p] == Cleared
       case Inside(p, act) => act.p == p && InnerStep(act)
       case Kill(p) => true
  }

  function NextPos(a: Action, c: Pos): Pos
  {
    match a
    case CallAcquire(p) => AcqEnter
    case Enter(p) => if c == RelEnter then Clearing else Testing
    case TestBusy(p) => Napping
    case TestFree(p) => AcqLeave
    case Leave(p) => if c == AcqLeave then Holding else Idle
    case CallRelease(p) => RelEnter
    case Clear(p) => Cleared
    case CallWakeup(p) => Waking
    case Inside(p, act) => if act.WakeDone? then RelLeave else c
    case Kill(p) => c
  }

  ghost function After(s: State, a: Action): (r: State)
    requires Can(s, a)
  {
    State(
      if Inner(s, a) == [] then s.m else Do(s.m, Inner(s, a)[0]),
      if a.TestFree? then true else if a.Clear? then false else s.locked,
      if a.TestFree? then a.p else if a.Clear? then -1 else s.owner,
      s.pos[a.p := NextPos(a, s.pos[a.p])])
  }

  ghost predicate PosOk(s: State, p: int)
    requires 0 <= p < |s.pos| == |s.m.pc|
  {
    var c := s.m.pc[p];
    && (s.owner == p <==> s.pos[p] in {AcqLeave, Holding, RelEnter, Clearing})
    && (s.pos[p] in {Idle, AcqEnter, Holding, RelEnter} <==> c == Out)
    && (s.pos[p] in {Testing, AcqLeave, Clearing, Cleared, RelLeave} <==> c == In)
    && (s.pos[p] == Waking <==> c.Wk1? || c.Wk2?) && (c.Wk1? || c.Wk2? ==> c.ch == 0)
    && (c.Sl1? || c.Sl2? || c.Sl3? || c.Asleep? ==> c.ch == 0)
    && (s.m.lk == p && s.pos[p] !in {Cleared, Waking} ==> s.m.owed == {})
  }

  ghost predicate Inv(s: State)
  {
    && Monitor.Inv(s.m) && |s.pos| == |s.m.pc|
    && s.m.cond == (if s.locked then {} else {0})
    && (s.locked <==> 0 <= s.owner < |s.pos|) && (!s.locked ==> s.owner == -1)
    && forall p {:trigger PosOk(s, p)} | 0 <= p < |s.pos| :: PosOk(s, p)
  }

  /** The acting process. */
  lemma ActorKeeps(s: State, a: Action)
    requires Can(s, a) && PosOk(s, a.p) && PcOk(s.m, a.p) && s.m.cond == (if s.locked then {} else {0})
    requires s.m.lk == -1 ==> s.m.owed == {}
    requires s.m.owed <= s.m.cond && (s.locked <==> s.owner != -1)
    ensures Inner(s, a) != [] ==> Disciplined(s.m, Inner(s, a)[0])
    ensures PosOk(After(s, a), a.p)
  {
  }

  lemma OtherKeeps(s: State, a: Action, q: int)
    requires Can(s, a) && PosOk(s, a.p) && PcOk(s.m, a.p) && 0 <= q < |s.pos| && q != a.p && PosOk(s, q) && PcOk(s.m, q)
    requires !s.locked ==> s.owner == -1
    ensures PosOk(After(s, a), q)
  {
    if Inner(s, a) != [] { OtherProcess(s.m, Inner(s, a)[0], q); }
  }

  lemma StepKeeps(s: State, a: Action)
    requires Inv(s) && Can(s, a)
    ensures Inv(After(s, a))
  {
    hide PcOk, Disciplined;
    assert PosOk(s, a.p) && PcOk(s.m, a.p);
    ActorKeeps(s, a);
    if Inner(s, a) != [] {
      Monitor.StepKeeps(s.m, Inner(s, a)[0]);
    }
    forall q | 0 <= q < |s.pos| ensures PosOk(After(s, a), q) {
      if q != a.p {
        assert PosOk(s, q) && PcOk(s.m, q);
        OtherKeeps(s, a, q);
      }
    }
  }

  // ---- every run ----

  ghost predicate Legal(s: State, run: seq<Action>)
    decreases |run|
  {
    run == [] || (Can(s, run[0]) && Legal(After(s, run[0]), run[1..]))
  }

  ghost function Final(s: State, run: seq<Action>): State
    requires Legal(s, run)
    decreases |run|
  {
    if run == [] then s else Final(After(s, run[0]), run[1..])
  }

  /** initsleeplock, with n processes. */
  function Init(n: nat): State
  {
    State(Mon(seq(n, i => Out), -1, -1, {0}, {}), false, -1, seq(n, i => Idle))
  }

  lemma {:induction false} RunKeeps(s: State, run: seq<Action>)
    requires Inv(s) && Legal(s, run)
    ensures Inv(Final(s, run))
    decreases |run|
  {
    if run != [] {
      StepKeeps(s, run[0]);
      RunKeeps(After(s, run[0]), run[1..]);
    }
  }

  /** Whenever the sleep-lock and its spinlock are free nobody is asleep on it, and at most one
      process is between the two calls. */
  lemma EveryReachableState(n: nat, run: seq<Action>)
    requires Legal(Init(n), run)
    ensures
      var s := Final(Init(n), run);
      && |s.pos| == |s.m.pc|
      && (!s.locked && s.m.lk == -1 ==> forall p | 0 <= p < |s.pos| :: !s.m.pc[p].Asleep?)
      && (forall p, q | 0 <= p < |s.pos| && 0 <= q < |s.pos| && s.pos[p] == Holding && s.pos[q] == Holding :: p == q)
      && (forall p | 0 <= p < |s.pos| && s.pos[p] == Holding :: s.locked && s.owner == p)
  {
    var i := Init(n);
    Start(i.m);
    assert forall p | 0 <= p < |i.pos| :: PosOk(i, p);
    RunKeeps(i, run);
    var s := Final(i, run);
    forall p | 0 <= p < |s.pos|
      ensures s.pos[p] == Holding ==> s.locked && s.owner == p
      ensures !s.locked && s.m.lk == -1 ==> !s.m.pc[p].Asleep?
    {
      assert PosOk(s, p);
      if s.m.lk == -1 { NoLostWakeup(s.m, p); }
    }
  }
}
