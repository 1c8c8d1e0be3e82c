/** pipe.c: the ring buffer, and the protocol of writers, readers and closers over sleep and
    wakeup. Channel 0 is &p->nread, channel 1 is &p->nwrite. */
module Pipe {
  import opened Basics
  import opened Monitor
  import opened Remainder

  /** data, nread and nwrite, with all bytes ever stored and taken, in the order of the lock. */
  datatype Ring = Ring(data: seq<int>, nread: nat, nwrite: nat, stored: seq<int>, taken: seq<int>)

  /** PIPESIZE; it divides the range of the counters. */
  ghost predicate Size(size: nat)
  {
    0 < size < TWO32 && Rem(TWO32, size) == 0
  }

  predicate Empty(r: Ring) { r.nread == r.nwrite }

  predicate Full(r: Ring)
  {
    r.nwrite == Rem(r.nread + |r.data|, TWO32)
  }

  /** p->data[p->nwrite++ % PIPESIZE] = b */
  function Store(r: Ring, b: int): Ring
    requires |r.data| > 0
  {
    Ring(r.data[Rem(r.nwrite, |r.data|) := b], r.nread, Rem(r.nwrite + 1, TWO32), r.stored + [b], r.taken)
  }

  /** p->data[p->nread++ % PIPESIZE] */
  function Take(r: Ring): Ring
    requires |r.data| > 0
  {
    Ring(r.data, Rem(r.nread + 1, TWO32), r.nwrite, r.stored, r.taken + [r.data[Rem(r.nread, |r.data|)]])
  }

  ghost predicate Fifo(r: Ring)
  {
    && Size(|r.data|)
    && r.taken <= r.stored && |r.stored| - |r.taken| <= |r.data|
    && r.nread == Rem(|r.taken|, TWO32) && r.nwrite == Rem(|r.stored|, TWO32)
    && forall j {:trigger r.stored[j]} | |r.taken| <= j < |r.stored| :: r.data[Rem(j, |r.data|)] == r.stored[j]
  }

  lemma {:induction false} RemIsMod(x: nat)
    ensures Rem(x, 512) == x % 512
  {
    if x >= 512 { RemIsMod(x - 512); }
  }

  lemma PipeSize()
    ensures Size(512)
  {
    RemIsMod(TWO32);
  }

  /** Wrap-around of the counters does not disturb the position in the buffer. */
  lemma {:induction false} CounterIndex(x: nat, size: nat)
    requires Size(size)
    ensures Rem(Rem(x, TWO32), size) == Rem(x, size)
  {
    if x >= TWO32 {
      CounterIndex(x - TWO32, size);
      RemAdd(x - TWO32, TWO32, size);
    }
  }

  /** The code's tests for empty and full are right although the counters wrap. */
  lemma EmptyFull(r: Ring)
    requires Fifo(r)
    ensures Empty(r) <==> r.taken == r.stored
    ensures Full(r) <==> |r.stored| - |r.taken| == |r.data|
  {
    var n := |r.stored| - |r.taken|;
    Distance(|r.taken|, n, 0);
    Distance(|r.taken|, n, |r.data|);
  }

  /** Numbers less than 2^32 apart are equal modulo 2^32 only if they are equal. */
  lemma {:induction false} Distance(x: nat, n: nat, m: nat)
    requires n < TWO32 && m < TWO32
    ensures Rem(x + n, TWO32) == Rem(Rem(x, TWO32) + m, TWO32) <==> n == m
  {
    if x >= TWO32 { Distance(x - TWO32, n, m); }
  }

  lemma StoreKeeps(r: Ring, b: int)
    requires Fifo(r) && !Full(r)
    ensures Fifo(Store(r, b)) && !Empty(Store(r, b))
  {
    EmptyFull(r);
    CounterIndex(|r.stored|, |r.data|);
    Distance(|r.stored|, 1, 1);
    var r' := Store(r, b);
    forall j | |r'.taken| <= j < |r'.stored| ensures r'.data[Rem(j, |r'.data|)] == r'.stored[j] {
      if j < |r.stored| { Apart(j, |r.stored|, |r.data|); }
    }
    EmptyFull(r');
  }

  lemma TakeKeeps(r: Ring)
    requires Fifo(r) && !Empty(r)
    ensures Fifo(Take(r)) && !Full(Take(r)) && Take(r).taken == r.stored[..|r.taken| + 1]
  {
    EmptyFull(r);
    CounterIndex(|r.taken|, |r.data|);
    Distance(|r.taken|, 1, 1);
    var r' := Take(r);
    assert r.stored[|r.taken|] == r.data[Rem(|r.taken|, |r.data|)];
    EmptyFull(r');
  }

  // ---- the protocol ----

  /** Where a process is: in pipewrite (i of buf stored; filled: one of them into an empty pipe,
      without a wakeup since), piperead (got: what the caller's buffer holds) or pipeclose. */
  datatype Job =
    | Nothing
    | WEnter(buf: seq<int>) | WLoop(buf: seq<int>, i: nat, filled: bool)
    | WFull(buf: seq<int>, i: nat) | WNap(buf: seq<int>, i: nat) | WEnd
    | REnter(n: nat) | RWait(n: nat) | RNap(n: nat) | RCopy(n: nat, got: seq<int>) | REnd(n: nat, got: seq<int>)
    | CEnter(w: bool) | CSet(w: bool) | CDone(w: bool) | CEnd(w: bool)

  /** rclosing: the last reference to the read end is gone, so nobody reads any more. */
  datatype State = State(m: Mon, r: Ring, readopen: bool, writeopen: bool, rclosing: bool, wclosing: bool,
                         job: seq<Job>)

  datatype Action =
    | Begin(p: int, what: Job)
    | Enter(p: int)
    | StoreByte(p: int)
    | ReadClosed(p: int)
    | KilledWrite(p: int)
    | FullWake(p: int)
    | FullSleep(p: int)
    | WriteEnd(p: int)
    | EmptySleep(p: int)
    | KilledRead(p: int)
    | ReadStart(p: int)
    | TakeByte(p: int)
    | ReadEnd(p: int)
    | CloseEnd(p: int)
    | CloseWake(p: int)
    | Leave(p: int)
    | Inside(p: int, act: Act)
    | Kill(p: int)

  predicate Reader(j: Job) { j.REnter? || j.RWait? || j.RNap? || j.RCopy? || j.REnd? }

  predicate Writer(j: Job) { j.WEnter? || j.WLoop? || j.WFull? || j.WNap? || j.WEnd? }

  predicate Closer(j: Job) { j.CEnter? || j.CSet? || j.CDone? || j.CEnd? }

  function Cond(r: Ring, readopen: bool, writeopen: bool): set<int>
  {
    (if !Empty(r) || !writeopen then {0} else {}) + (if !Full(r) || !readopen then {1} else {})
  }

  /** Who starts a call has the pipe's end open, and an end is closed once, with its last user
      gone. */
  ghost predicate MayBegin(s: State, what: Job)
  {
    match what
    case WEnter(buf) => !s.wclosing
    case REnter(n) => !s.rclosing
    case CEnter(w) => if w then !s.wclosing && (forall q | 0 <= q < |s.job| :: !Writer(s.job[q]))
                      else !s.rclosing && (forall q | 0 <= q < |s.job| :: !Reader(s.job[q]))
    case _ => false
  }

  /** The code's own guards. */
  ghost predicate Guard(s: State, a: Action)
  {
    && 0 <= a.p < |s.job| == |s.m.pc| && |s.r.data| > 0
    && var j := s.job[a.p];
       match a
       case Begin(p, what) => j == Nothing && MayBegin(s, what)
       case Enter(p) => j.WEnter? || j.REnter? || j.CEnter? || ((j.WNap? || j.RNap?) && s.m.pc[p] == Ready)
       case StoreByte(p) => j.WLoop? && j.i < |j.buf| && !Full(s.r)
       case ReadClosed(p) => j.WLoop? && j.i < |j.buf| && Full(s.r) && !s.readopen
       case KilledWrite(p) => j.WLoop? && j.i < |j.buf| && Full(s.r)
       case FullWake(p) => j.WLoop? && j.i < |j.buf| && Full(s.r) && s.readopen
       case FullSleep(p) => j.WFull?
       case WriteEnd(p) => j.WLoop? && j.i >= |j.buf|
       case EmptySleep(p) => j.RWait? && Empty(s.r) && s.writeopen
       case KilledRead(p) => j.RWait? && Empty(s.r) && s.writeopen
       case ReadStart(p) => j.RWait? && !(Empty(s.r) && s.writeopen)
       case TakeByte(p) => j.RCopy? && |j.got| < j.n && !Empty(s.r)
       case ReadEnd(p) => j.RCopy? && (|j.got| >= j.n || Empty(s.r))
       case CloseEnd(p) => j.CSet?
       case CloseWake(p) => j.CDone?
       case Leave(p) => j.WEnd? || j.REnd? || j.CEnd?
       case Inside(p, act) => act.p == p && InnerStep(act)
       case Kill(p) => true
  }

  function NextRing(s: State, a: Action): Ring
    requires |s.r.data| > 0 && 0 <= a.p < |s.job|
  {
    var j := s.job[a.p];
    if a.StoreByte? && j.WLoop? && j.i < |j.buf| then Store(s.r, j.buf[j.i]) else if a.TakeByte? then Take(s.r) else s.r
  }

  predicate NextReadopen(s: State, a: Action)
    requires 0 <= a.p < |s.job|
  {
    s.readopen && !(a.CloseEnd? && s.job[a.p] == CSet(false))
  }

  predicate NextWriteopen(s: State, a: Action)
    requires 0 <= a.p < |s.job|
  {
    s.writeopen && !(a.CloseEnd? && s.job[a.p] == CSet(true))
  }

  function NextCond(s: State, a: Action): set<int>
    requires |s.r.data| > 0 && 0 <= a.p < |s.job|
  {
    Cond(NextRing(s, a), NextReadopen(s, a), NextWriteopen(s, a))
  }

  /** The step of sleep, wakeup or the spinlock that an action makes, if any. */
  function Inner(s: State, a: Action): (r: seq<Act>)
    requires |s.r.data| > 0 && 0 <= a.p < |s.job|
  {
    match a
    case Begin(p, what) => []
    case Enter(p) => [Acquire(p)]
    case StoreByte(p) => [Change(p, NextCond(s, a))]
    case ReadClosed(p) => [Release(p)]
    case KilledWrite(p) => [Release(p)]
    case FullWake(p) => [Wakeup(p, 0)]
    case FullSleep(p) => [Sleep(p, 1)]
    case WriteEnd(p) => [Wakeup(p, 0)]
    case EmptySleep(p) => [Sleep(p, 0)]
    case KilledRead(p) => [Release(p)]
    case ReadStart(p) => []
    case TakeByte(p) => [Change(p, NextCond(s, a))]
    case ReadEnd(p) => [Wakeup(p, 1)]
    case CloseEnd(p) => [Change(p, NextCond(s, a))]
    case CloseWake(p) => [Wakeup(p, if s.job[p] == CDone(true) then 0 else 1)]
    case Leave(p) => [Release(p)]
    case Inside(p, act) => [act]
    case Kill(p) => [Rouse(p)]
  }

  function NextJob(s: State, a: Action): Job
    requires |s.r.data| > 0 && 0 <= a.p < |s.job|
  {
    var j := s.job[a.p];
    match a
    case Begin(p, what) => what
    case Enter(p) =>
      (match j
       case WEnter(buf) => WLoop(buf, 0, false)
       case WNap(buf, i) => WLoop(buf, i, false)
       case REnter(n) => RWait(n)
       case RNap(n) => RWait(n)
       case CEnter(w) => CSet(w)
       case _ => j)
    case StoreByte(p) => if j.WLoop? then WLoop(j.buf, j.i + 1, j.filled || Empty(s.r)) else j
    case ReadClosed(p) => Nothing
    case KilledWrite(p) => Nothing
    case FullWake(p) => if j.WLoop? then WFull(j.buf, j.i) else j
    case FullSleep(p) => if j.WFull? then WNap(j.buf, j.i) else j
    case WriteEnd(p) => WEnd
    case EmptySleep(p) => if j.RWait? then RNap(j.n) else j
    case KilledRead(p) => Nothing
    case ReadStart(p) => if j.RWait? then RCopy(j.n, []) else j
    case TakeByte(p) => if j.RCopy? then RCopy(j.n, j.got + [s.r.data[Rem(s.r.nread, |s.r.data|)]]) else j
    case ReadEnd(p) => if j.RCopy? then REnd(j.n, j.got) else j
    case CloseEnd(p) => if j.CSet? then CDone(j.w) else j
    case CloseWake(p) => if j.CDone? then CEnd(j.w) else j
    case Leave(p) => Nothing
    case Inside(p, act) => j
    case Kill(p) => j
  }

  ghost predicate Can(s: State, a: Action)
  {
    Guard(s, a) && (Inner(s, a) != [] ==> Enabled(s.m, Inner(s, a)[0]))
  }

  ghost function After(s: State, a: Action): (r: State)
    requires Can(s, a)
  {
    State(
      if Inner(s, a) == [] then s.m else Do(s.m, Inner(s, a)[0]),
      NextRing(s, a), NextReadopen(s, a), NextWriteopen(s, a),
      s.rclosing || (a.Begin? && a.what == CEnter(false)), s.wclosing || (a.Begin? && a.what == CEnter(true)),
      s.job[a.p := NextJob(s, a)])
  }

  // ---- no lost wakeup ----

  /** The channels lk's holder may owe a wakeup to, by where it is. */
  function MayOwe(j: Job, c: Pc): set<int>
  {
    match j
    case WLoop(buf, i, filled) => if filled then {0} else {}
    case WFull(buf, i) => if c == In then {} else {0}
    case WEnd => if c == In then {} else {0}
    case RCopy(n, got) => {1}
    case REnd(n, got) => if c == In then {} else {1}
    case CDone(w) => if w then {0} else {1}
    case CEnd(w) => if c == In then {} else if w then {0} else {1}
    case _ => {}
  }

  ghost predicate JobOk(s: State, p: int)
    requires 0 <= p < |s.job| == |s.m.pc|
  {
    var j, c := s.job[p], s.m.pc[p];
    && (c == Out <==> j.Nothing? || j.WEnter? || j.REnter? || j.CEnter?)
    && (j.WNap? || j.RNap? <==> c.Sl1? || c.Sl2? || c.Sl3? || c.Asleep? || c.Ready?)
    && (c.Sl1? || c.Sl2? || c.Sl3? || c.Asleep? ==> c.ch == if j.WNap? then 1 else 0)
    && (c.Wk1? || c.Wk2? ==>
          (j.WFull? || j.WEnd? || j.REnd? || j.CEnd?) && c.ch == if j.REnd? || j == CEnd(false) then 1 else 0)
    && (s.m.lk == p ==> s.m.owed <= MayOwe(j, c))
    && (j.WFull? ==> Full(s.r) && s.readopen)
    && (Reader(j) ==> !s.rclosing) && (Writer(j) ==> !s.wclosing)
    && (Closer(j) ==> if j.w then s.wclosing else s.rclosing)
  }

  ghost predicate Inv(s: State)
  {
    && Monitor.Inv(s.m) && |s.job| == |s.m.pc| && Size(|s.r.data|)
    && s.m.cond == Cond(s.r, s.readopen, s.writeopen)
    && (!s.readopen ==> s.rclosing) && (!s.writeopen ==> s.wclosing)
    && forall p {:trigger JobOk(s, p)} | 0 <= p < |s.job| :: JobOk(s, p)
  }

  /** A killed writer returns only if it has not filled an empty pipe. */
  ghost predicate Harmless(s: State, a: Action)
  {
    a.KilledWrite? && 0 <= a.p < |s.job| && s.job[a.p].WLoop? ==> !s.job[a.p].filled
  }

  /** Every action of the code respects the rule for sleep and release, the return of a killed
      writer that has filled an empty pipe excepted. */
  lemma Disciplines(s: State, a: Action)
    requires Inv(s) && Can(s, a) && Inner(s, a) != [] && Harmless(s, a)
    ensures Disciplined(s.m, Inner(s, a)[0])
  {
    assert JobOk(s, a.p) && PcOk(s.m, a.p);
    if a.ReadClosed? {
      forall q | 0 <= q < |s.m.pc| && Sleeps(s.m.pc[q]) ensures s.m.pc[q].ch !in s.m.owed {
        assert JobOk(s, q);
      }
    }
  }

  /** The acting process, in pipewrite. */
  lemma WriterKeeps(s: State, a: Action)
    requires |s.job| == |s.m.pc| && Can(s, a) && JobOk(s, a.p) && PcOk(s.m, a.p)
    requires s.m.cond == Cond(s.r, s.readopen, s.writeopen)
    requires a.StoreByte? || a.ReadClosed? || a.KilledWrite? || a.FullWake? || a.FullSleep? || a.WriteEnd?
    ensures JobOk(After(s, a), a.p)
  {
  }

  /** In piperead. */
  lemma ReaderKeeps(s: State, a: Action)
    requires |s.job| == |s.m.pc| && Can(s, a) && JobOk(s, a.p) && PcOk(s.m, a.p)
    requires s.m.cond == Cond(s.r, s.readopen, s.writeopen)
    requires a.EmptySleep? || a.KilledRead? || a.ReadStart? || a.TakeByte?
    ensures JobOk(After(s, a), a.p)
  {
  }

  /** In pipeclose, or at the end of piperead. */
  lemma CloserKeeps(s: State, a: Action)
    requires |s.job| == |s.m.pc| && Can(s, a) && JobOk(s, a.p) && PcOk(s.m, a.p)
    requires s.m.cond == Cond(s.r, s.readopen, s.writeopen)
    requires a.CloseEnd? || a.CloseWake? || a.ReadEnd?
    ensures JobOk(After(s, a), a.p)
  {
  }

  /** Taking the lock and giving it back. */
  lemma BorderKeeps(s: State, a: Action)
    requires |s.job| == |s.m.pc| && Can(s, a) && JobOk(s, a.p) && PcOk(s.m, a.p)
    requires s.m.cond == Cond(s.r, s.readopen, s.writeopen)
    requires s.m.lk == -1 ==> s.m.owed == {}
    requires a.Begin? || a.Enter? || a.Leave?
    ensures JobOk(After(s, a), a.p)
  {
    hide Empty, Full, Cond;
  }

  /** In sleep and wakeup. */
  lemma SleeperKeeps(s: State, a: Action)
    requires |s.job| == |s.m.pc| && Can(s, a) && JobOk(s, a.p) && PcOk(s.m, a.p)
    requires a.Inside? || a.Kill?
    ensures JobOk(After(s, a), a.p)
  {
    hide Empty, Full, Cond;
  }

  lemma ActorKeeps(s: State, a: Action)
    requires |s.job| == |s.m.pc| && Can(s, a) && JobOk(s, a.p) && PcOk(s.m, a.p)
    requires s.m.cond == Cond(s.r, s.readopen, s.writeopen)
    requires s.m.lk == -1 ==> s.m.owed == {}
    ensures JobOk(After(s, a), a.p)
  {
    hide JobOk, PcOk, Can, Cond;
    match a
    case Begin(p, what) => BorderKeeps(s, a);
    case Enter(p) => BorderKeeps(s, a);
    case CloseEnd(p) => CloserKeeps(s, a);
    case CloseWake(p) => CloserKeeps(s, a);
    case Inside(p, act) => SleeperKeeps(s, a);
    case Kill(p) => SleeperKeeps(s, a);
    case StoreByte(p) => WriterKeeps(s, a);
    case ReadClosed(p) => WriterKeeps(s, a);
    case KilledWrite(p) => WriterKeeps(s, a);
    case FullWake(p) => WriterKeeps(s, a);
    case FullSleep(p) => WriterKeeps(s, a);
    case WriteEnd(p) => WriterKeeps(s, a);
    case EmptySleep(p) => ReaderKeeps(s, a);
    case KilledRead(p) => ReaderKeeps(s, a);
    case ReadStart(p) => ReaderKeeps(s, a);
    case TakeByte(p) => ReaderKeeps(s, a);
    case ReadEnd(p) => CloserKeeps(s, a);
    case Leave(p) => BorderKeeps(s, a);
  }

  lemma OtherKeeps(s: State, a: Action, q: int)
    requires |s.job| == |s.m.pc| && Can(s, a) && JobOk(s, a.p) && PcOk(s.m, a.p)
    requires 0 <= q < |s.job| && q != a.p && JobOk(s, q) && PcOk(s.m, q)
    ensures JobOk(After(s, a), q)
  {
    hide JobOk, PcOk, Empty, Full, Cond;
    if Inner(s, a) != [] { OtherProcess(s.m, Inner(s, a)[0], q); }
    SameJob(s, After(s, a), q, Inner(s, a) != [] && Inner(s, a)[0].Change?);
  }

  lemma SameJob(s: State, s': State, q: int, change: bool)
    requires |s.job| == |s.m.pc| == |s'.job| == |s'.m.pc| && 0 <= q < |s.job| && JobOk(s, q) && PcOk(s.m, q)
    requires s'.job[q] == s.job[q] && (s'.m.pc[q] == s.m.pc[q] || (s.m.pc[q].Asleep? && s'.m.pc[q] == Ready))
    requires (s'.m.lk == q <==> s.m.lk == q) && (s.m.lk == q ==> s'.m.owed == s.m.owed && !change)
    requires !change ==> s'.r == s.r && s'.readopen == s.readopen
    requires (Reader(s.job[q]) ==> s'.rclosing == s.rclosing) && (Writer(s.job[q]) ==> s'.wclosing == s.wclosing)
    requires (s.rclosing ==> s'.rclosing) && (s.wclosing ==> s'.wclosing)
    ensures JobOk(s', q)
  {
  }

  /** What is not about one process. */
  lemma SharedKeeps(s: State, a: Action)
    requires |s.job| == |s.m.pc| && Can(s, a) && JobOk(s, a.p) && s.m.cond == Cond(s.r, s.readopen, s.writeopen)
    requires (!s.readopen ==> s.rclosing) && (!s.writeopen ==> s.wclosing)
    ensures
      var s' := After(s, a);
      && |s'.job| == |s'.m.pc| == |s.job| && |s'.r.data| == |s.r.data|
      && s'.m.cond == Cond(s'.r, s'.readopen, s'.writeopen)
      && (!s'.readopen ==> s'.rclosing) && (!s'.writeopen ==> s'.wclosing)
      && s'.m == if Inner(s, a) == [] then s.m else Do(s.m, Inner(s, a)[0])
  {
  }

  lemma StepKeeps(s: State, a: Action)
    requires Inv(s) && Can(s, a) && Harmless(s, a)
    ensures Inv(After(s, a))
  {
    hide JobOk, PcOk, Disciplined, Do, Cond;
    assert JobOk(s, a.p) && PcOk(s.m, a.p);
    SharedKeeps(s, a);
    if Inner(s, a) != [] {
      Disciplines(s, a);
      Monitor.StepKeeps(s.m, Inner(s, a)[0]);
    }
    ActorKeeps(s, a);
    forall q | 0 <= q < |s.job| ensures JobOk(After(s, a), q) {
      if q != a.p {
        assert JobOk(s, q) && PcOk(s.m, q);
        OtherKeeps(s, a, q);
      }
    }
  }

  // ---- every run ----

  ghost predicate Legal(s: State, run: seq<Action>)
    decreases |run|
  {
    run == [] || (Can(s, run[0]) && Legal(After(s, run[0]), run[1..]))
  }

  ghost function Final(s: State, run: seq<Action>): State
    requires Legal(s, run)
    decreases |run|
  {
    if run == [] then s else Final(After(s, run[0]), run[1..])
  }

  ghost predicate AllHarmless(s: State, run: seq<Action>)
    requires Legal(s, run)
    decreases |run|
  {
    run == [] || (Harmless(s, run[0]) && AllHarmless(After(s, run[0]), run[1..]))
  }

  /** pipealloc, with n processes. */
  ghost function Init(n: nat, size: nat): State
  {
    State(Mon(seq(n, i => Out), -1, -1, {1}, {}), Ring(seq(size, i => 0), 0, 0, [], []), true, true, false, false,
          seq(n, i => Nothing))
  }

  /** With the lock free no reader sleeps on a pipe with bytes or without writers, and no
      writer on one with room or without readers. */
  ghost predicate Awake(s: State)
  {
    && |s.job| == |s.m.pc|
    && (s.m.lk == -1 ==> forall p | 0 <= p < |s.job| && s.m.pc[p].Asleep? ::
          && (s.job[p].RNap? ==> Empty(s.r) && s.writeopen)
          && (s.job[p].WNap? ==> Full(s.r) && s.readopen))
  }

  lemma {:induction false} RunKeeps(s: State, run: seq<Action>)
    requires Inv(s) && Legal(s, run) && AllHarmless(s, run)
    ensures Inv(Final(s, run))
    decreases |run|
  {
    if run != [] {
      StepKeeps(s, run[0]);
      RunKeeps(After(s, run[0]), run[1..]);
    }
  }

  lemma InvAwake(s: State)
    requires Inv(s)
    ensures Awake(s)
  {
    if s.m.lk == -1 {
      forall p | 0 <= p < |s.job| && s.m.pc[p].Asleep?
        ensures s.job[p].RNap? ==> Empty(s.r) && s.writeopen
        ensures s.job[p].WNap? ==> Full(s.r) && s.readopen
      {
        assert JobOk(s, p);
        NoLostWakeup(s.m, p);
      }
    }
  }

  lemma InitInv(n: nat, size: nat)
    requires Size(size)
    ensures Inv(Init(n, size)) && Fifo(Init(n, size).r)
  {
    var s := Init(n, size);
    Start(s.m);
    assert Rem(size, TWO32) == size;
    assert forall p | 0 <= p < n :: JobOk(s, p);
  }

  /** No wakeup is lost in a run in which no killed writer returns that has filled an empty pipe
      since it last took the lock. */
  lemma EveryRunAwake(n: nat, size: nat, run: seq<Action>)
    requires Size(size) && Legal(Init(n, size), run) && AllHarmless(Init(n, size), run)
    ensures Awake(Final(Init(n, size), run))
  {
    InitInv(n, size);
    RunKeeps(Init(n, size), run);
    InvAwake(Final(Init(n, size), run));
  }

  lemma {:induction false} FifoKeeps(s: State, run: seq<Action>)
    requires Fifo(s.r) && Legal(s, run)
    ensures Fifo(Final(s, run).r)
    decreases |run|
  {
    if run != [] {
      var a := run[0];
      if a.StoreByte? { StoreKeeps(s.r, s.job[a.p].buf[s.job[a.p].i]); }
      if a.TakeByte? { TakeKeeps(s.r); }
      FifoKeeps(After(s, a), run[1..]);
    }
  }

  /** In every run, killed writers or not, the bytes taken are the first of those stored, and
      the pipe holds at most PIPESIZE, however often the counters have wrapped. */
  lemma EveryRunFifo(n: nat, size: nat, run: seq<Action>)
    requires Size(size) && Legal(Init(n, size), run)
    ensures
      var r := Final(Init(n, size), run).r;
      r.taken <= r.stored && 0 <= |r.stored| - |r.taken| <= size
  {
    InitInv(n, size);
    FifoKeeps(Init(n, size), run);
    SameSize(Init(n, size), run);
  }

  lemma {:induction false} SameSize(s: State, run: seq<Action>)
    requires Legal(s, run)
    ensures |Final(s, run).r.data| == |s.r.data|
    decreases |run|
  {
    if run != [] { SameSize(After(s, run[0]), run[1..]); }
  }

  // ---- from the writers' buffers to the readers' ----

  lemma Assoc(x: seq<int>, y: seq<int>, z: seq<int>)
    ensures x + (y + z) == x + y + z && x + [] == x
  {
  }

  lemma StoredGrows(s: State, a: Action)
    requires Can(s, a)
    ensures s.r.stored <= After(s, a).r.stored && s.r.taken <= After(s, a).r.taken
  {
  }

  /** The bytes that a step puts into the pipe. */
  ghost function Stored(s: State, a: Action): seq<int>
    requires Can(s, a)
  {
    StoredGrows(s, a);
    After(s, a).r.stored[|s.r.stored|..]
  }

  /** What p has put into the pipe since it began its call; so far it was `put`. */
  ghost function PutBy(s: State, run: seq<Action>, p: int, put: seq<int>): seq<int>
    requires Legal(s, run)
    decreases |run|
  {
    if run == [] then put
    else
      var a := run[0];
      PutBy(After(s, a), run[1..], p, if a.p != p then put else if a.Begin? then [] else put + Stored(s, a))
  }

  /** The call that p began last. */
  function CallOf(run: seq<Action>, p: int, call: Job): Job
    decreases |run|
  {
    if run == [] then call
    else CallOf(run[1..], p, if run[0].Begin? && run[0].p == p then run[0].what else call)
  }

  /** A call of pipewrite has put the first bytes of its buffer into the pipe. */
  ghost predicate InOrder(j: Job, call: Job, put: seq<int>)
  {
    match j
    case WEnter(buf) => call == WEnter(buf) && put == []
    case WLoop(buf, i, filled) => call == WEnter(buf) && i <= |buf| && put == buf[..i]
    case WFull(buf, i) => call == WEnter(buf) && i <= |buf| && put == buf[..i]
    case WNap(buf, i) => call == WEnter(buf) && i <= |buf| && put == buf[..i]
    case WEnd => call.WEnter? && put == call.buf
    case Nothing => call.WEnter? ==> put <= call.buf
    case _ => !call.WEnter?
  }

  lemma OrderStore(s: State, p: int, call: Job, put: seq<int>)
    requires Can(s, StoreByte(p)) && InOrder(s.job[p], call, put)
    ensures InOrder(After(s, StoreByte(p)).job[p], call, put + Stored(s, StoreByte(p)))
  {
    hide Do, Enabled, Cond, Empty, Full;
    var j := s.job[p];
    assert Stored(s, StoreByte(p)) == [j.buf[j.i]];
    assert j.buf[..j.i + 1] == j.buf[..j.i] + [j.buf[j.i]];
  }

  lemma StoredNothing(s: State, a: Action)
    requires Can(s, a) && !a.StoreByte?
    ensures Stored(s, a) == []
  {
    hide Do, Enabled, Cond, Empty, Full, NextJob;
  }

  lemma OrderElse(s: State, a: Action, call: Job, put: seq<int>)
    requires Can(s, a) && InOrder(s.job[a.p], call, put) && !a.StoreByte? && !a.Begin?
    ensures InOrder(After(s, a).job[a.p], call, put)
  {
    hide Do, Enabled, Cond, Empty, Full, NextRing, NextReadopen, NextWriteopen, Inner;
    var j := s.job[a.p];
    if a.WriteEnd? { assert j.buf[..|j.buf|] == j.buf; }
  }

  lemma OrderStep(s: State, a: Action, call: Job, put: seq<int>)
    requires Can(s, a) && InOrder(s.job[a.p], call, put)
    ensures
      if a.Begin? then InOrder(After(s, a).job[a.p], a.what, [])
      else InOrder(After(s, a).job[a.p], call, put + Stored(s, a))
  {
    hide Do, Enabled, Cond, Stored;
    if a.StoreByte? {
      OrderStore(s, a.p, call, put);
    } else if !a.Begin? {
      OrderElse(s, a, call, put);
      StoredNothing(s, a);
      Assoc(put, [], []);
    }
  }

  lemma {:induction false} OrderKeeps(s: State, run: seq<Action>, p: int, call: Job, put: seq<int>)
    requires Legal(s, run) && 0 <= p < |s.job| && InOrder(s.job[p], call, put)
    ensures |Final(s, run).job| == |s.job|
    ensures InOrder(Final(s, run).job[p], CallOf(run, p, call), PutBy(s, run, p, put))
    decreases |run|
  {
    hide InOrder, Can, After;
    if run != [] {
      var a := run[0];
      SameJobs(s, a);
      if a.p == p { OrderStep(s, a, call, put); }
      var call' := if a.Begin? && a.p == p then a.what else call;
      var put' := if a.p != p then put else if a.Begin? then [] else put + Stored(s, a);
      OrderKeeps(After(s, a), run[1..], p, call', put');
    }
  }

  lemma SameJobs(s: State, a: Action)
    requires Can(s, a)
    ensures 0 <= a.p < |s.job| && |After(s, a).job| == |s.job|
    ensures forall q | 0 <= q < |s.job| && q != a.p :: After(s, a).job[q] == s.job[q]
  {
  }

  /** In every run, what a call of pipewrite has put into the pipe is a prefix of its buffer, and
      all of it at the end of a call that is not cut short. */
  lemma EveryWriteInOrder(n: nat, size: nat, run: seq<Action>, p: int)
    requires Size(size) && Legal(Init(n, size), run) && 0 <= p < n
    ensures
      var s := Init(n, size);
      var call, put := CallOf(run, p, Nothing), PutBy(s, run, p, []);
      && (call.WEnter? ==> put <= call.buf)
      && |Final(s, run).job| == n && (Final(s, run).job[p].WEnd? ==> call.WEnter? && put == call.buf)
  {
    OrderKeeps(Init(n, size), run, p, Nothing, []);
  }

  /** What a reader has in its buffer are the last bytes taken out; it stops short of what it was
      asked for only at an empty pipe, and with nothing only if no writer is left. */
  ghost predicate GotOk(s: State, p: int)
    requires 0 <= p < |s.job| == |s.m.pc|
  {
    var j, c, taken := s.job[p], s.m.pc[p], s.r.taken;
    && (j.RWait? || j.RCopy? ==> c == In) && (j.REnd? ==> c == In || c.Wk1? || c.Wk2?)
    && (j.RCopy? || j.REnd? ==> |j.got| <= |taken| && taken[|taken| - |j.got|..] == j.got)
    && (j.RCopy? || j.REnd? ==> |j.got| <= j.n)
    && (j.RCopy? && j.got == [] ==> !Empty(s.r) || !s.writeopen)
    && (j.REnd? && |j.got| < j.n ==> Empty(s.r) && (j.got == [] ==> !s.writeopen))
  }

  ghost predicate AllGot(s: State)
  {
    && |s.job| == |s.m.pc| && OneHolder(s.m)
    && forall p {:trigger GotOk(s, p)} | 0 <= p < |s.job| :: GotOk(s, p)
  }

  lemma GotStart(s: State, p: int)
    requires Can(s, ReadStart(p)) && |s.job| == |s.m.pc| && GotOk(s, p)
    ensures |After(s, ReadStart(p)).job| == |After(s, ReadStart(p)).m.pc| && GotOk(After(s, ReadStart(p)), p)
  {
    hide Cond, Full, Empty;
  }

  lemma GotTake(s: State, p: int)
    requires Can(s, TakeByte(p)) && |s.job| == |s.m.pc| && GotOk(s, p)
    ensures |After(s, TakeByte(p)).job| == |After(s, TakeByte(p)).m.pc| && GotOk(After(s, TakeByte(p)), p)
  {
    hide Cond, Full, Empty;
    var got, b := s.job[p].got, s.r.data[Rem(s.r.nread, |s.r.data|)];
    LastBytes(s.r.taken, got, b);
  }

  lemma LastBytes(taken: seq<int>, got: seq<int>, b: int)
    requires |got| <= |taken| && taken[|taken| - |got|..] == got
    ensures (taken + [b])[|taken| - |got|..] == got + [b]
  {
  }

  lemma GotEnd(s: State, p: int)
    requires Can(s, ReadEnd(p)) && |s.job| == |s.m.pc| && GotOk(s, p)
    ensures |After(s, ReadEnd(p)).job| == |After(s, ReadEnd(p)).m.pc| && GotOk(After(s, ReadEnd(p)), p)
  {
    hide Cond, Full, Empty;
  }

  lemma GotBorder(s: State, a: Action)
    requires Can(s, a) && |s.job| == |s.m.pc| && GotOk(s, a.p) && (a.Begin? || a.Enter? || a.Leave?)
    ensures |After(s, a).job| == |After(s, a).m.pc| && GotOk(After(s, a), a.p)
  {
    hide Cond, Full;
  }

  lemma GotInside(s: State, a: Action)
    requires Can(s, a) && |s.job| == |s.m.pc| && GotOk(s, a.p) && (a.Inside? || a.Kill?)
    ensures |After(s, a).job| == |After(s, a).m.pc| && GotOk(After(s, a), a.p)
  {
    hide Cond, Empty, Full;
  }

  /** The steps after which the process is not in piperead, or asleep there. */
  lemma GotNothing(s: State, a: Action)
    requires Can(s, a) && |s.job| == |s.m.pc| && !(a.ReadStart? || a.TakeByte? || a.ReadEnd?)
    requires !(a.Begin? || a.Enter? || a.Leave? || a.Inside? || a.Kill?)
    ensures |After(s, a).job| == |After(s, a).m.pc| && GotOk(After(s, a), a.p)
  {
    hide Cond, Empty, Full, NextReadopen, NextWriteopen;
  }

  lemma GotStep(s: State, a: Action)
    requires Can(s, a) && |s.job| == |s.m.pc| && GotOk(s, a.p)
    ensures |After(s, a).job| == |After(s, a).m.pc| && GotOk(After(s, a), a.p)
  {
    hide Can, After, GotOk;
    if a.ReadStart? {
      GotStart(s, a.p);
    } else if a.TakeByte? {
      GotTake(s, a.p);
    } else if a.ReadEnd? {
      GotEnd(s, a.p);
    } else if a.Begin? || a.Enter? || a.Leave? {
      GotBorder(s, a);
    } else if a.Inside? || a.Kill? {
      GotInside(s, a);
    } else {
      GotNothing(s, a);
    }
  }

  /** Whoever changes the pipe holds its lock. */
  lemma ChangedBy(s: State, a: Action)
    requires Can(s, a) && |s.job| == |s.m.pc|
    ensures 0 <= a.p < |s.job|
    ensures s.m.pc[a.p] == In || (After(s, a).r == s.r && After(s, a).writeopen == s.writeopen)
  {
    hide Do, Cond, Empty, Full;
  }

  lemma OtherPc(s: State, a: Action, q: int)
    requires Can(s, a) && |s.job| == |s.m.pc| && OneHolder(s.m) && 0 <= q < |s.job| && q != a.p
    ensures
      var pc := After(s, a).m.pc;
      |pc| == |s.job| && (pc[q] == s.m.pc[q] || (s.m.pc[q].Asleep? && pc[q] == Ready))
  {
    hide Do, Cond, Empty, Full, OneHolder;
    if Inner(s, a) != [] { HolderKeeps(s.m, Inner(s, a)[0]); }
  }

  lemma GotOther(s: State, a: Action, q: int)
    requires Can(s, a) && |s.job| == |s.m.pc| && OneHolder(s.m) && 0 <= q < |s.job| && q != a.p && GotOk(s, q)
    ensures |After(s, a).job| == |After(s, a).m.pc| && GotOk(After(s, a), q)
  {
    hide Can, After, Empty;
    SameJobs(s, a);
    OtherPc(s, a, q);
    ChangedBy(s, a);
  }

  lemma {:induction false} GotKeeps(s: State, run: seq<Action>)
    requires AllGot(s) && Legal(s, run)
    ensures AllGot(Final(s, run))
    decreases |run|
  {
    hide GotOk, Can, Do, NextJob, NextRing, Inner, OneHolder;
    if run != [] {
      var a := run[0];
      SharedLock(s, a);
      assert GotOk(s, a.p);
      GotStep(s, a);
      forall q | 0 <= q < |s.job| && q != a.p ensures GotOk(After(s, a), q) {
        assert GotOk(s, q);
        GotOther(s, a, q);
      }
      GotKeeps(After(s, a), run[1..]);
    }
  }

  lemma SharedLock(s: State, a: Action)
    requires Can(s, a) && |s.job| == |s.m.pc| && OneHolder(s.m)
    ensures 0 <= a.p < |s.job| == |After(s, a).job| == |After(s, a).m.pc| && OneHolder(After(s, a).m)
  {
    if Inner(s, a) != [] { HolderKeeps(s.m, Inner(s, a)[0]); }
  }

  /** In every run, what a call of piperead returns or has copied so far are the last bytes taken
      out of the pipe, at most as many as it was asked for; fewer only from a pipe that is empty, and
      none only at the end of the file. */
  lemma EveryReadInOrder(n: nat, size: nat, run: seq<Action>, p: int)
    requires Size(size) && Legal(Init(n, size), run) && 0 <= p < n
    ensures
      var s := Final(Init(n, size), run);
      && |s.job| == n
      && var j, taken := s.job[p], s.r.taken;
         && (j.RCopy? || j.REnd? ==> |j.got| <= j.n && |j.got| <= |taken| && taken[|taken| - |j.got|..] == j.got)
         && (j.REnd? && |j.got| < j.n ==> Empty(s.r) && (j.got == [] ==> !s.writeopen))
  {
    hide Can, After, Legal, Final, Size, Empty;
    var s := Init(n, size);
    GotKeeps(s, run);
    OrderKeeps(s, run, p, Nothing, []);
    assert GotOk(Final(s, run), p);
  }

  /** A call of piperead returns without reading only at an empty pipe that has writers, by a kill; */
  lemma ReadFails(s: State, a: Action)
    requires Can(s, a) && s.job[a.p].RWait? && After(s, a).job[a.p] == Nothing
    ensures Empty(s.r) && s.writeopen && a.KilledRead?
  {
  }

  /** and one of pipewrite is cut short only at a full pipe, by a kill or because nobody reads. */
  lemma CutShort(s: State, a: Action)
    requires Can(s, a) && s.job[a.p].WLoop? && After(s, a).job[a.p] == Nothing
    ensures Full(s.r) && (a.KilledWrite? || !s.readopen)
  {
  }

  // ---- one writer, one reader ----

  /** What w asks to be written, ... */
  function AskedBy(a: Action, w: int): seq<int>
  {
    if a.Begin? && a.p == w && a.what.WEnter? then a.what.buf else []
  }

  /** ... in all its calls. */
  function Sent(run: seq<Action>, w: int): seq<int>
  {
    if run == [] then [] else AskedBy(run[0], w) + Sent(run[1..], w)
  }

  /** What r's call of piperead returns, ... */
  ghost function ReturnedBy(s: State, a: Action, r: int): seq<int>
    requires Can(s, a) && 0 <= r < |s.job|
  {
    if a == ReadEnd(r) && After(s, a).job[r].REnd? then After(s, a).job[r].got else []
  }

  /** ... and all its calls. */
  ghost function Received(s: State, run: seq<Action>, r: int): seq<int>
    requires Legal(s, run) && 0 <= r < |s.job|
    decreases |run|
  {
    if run == [] then [] else ReturnedBy(s, run[0], r) + Received(After(s, run[0]), run[1..], r)
  }

  /** Only w writes and only r reads, and no write is cut short. */
  predicate LoneStep(a: Action, w: int, r: int)
  {
    && (a.StoreByte? ==> a.p == w) && (a.TakeByte? ==> a.p == r)
    && a != KilledWrite(w) && a != ReadClosed(w)
  }

  /** What w's call has still to write, ... */
  function ToWrite(j: Job): seq<int>
  {
    match j
    case WEnter(buf) => buf
    case WLoop(buf, i, filled) => if i <= |buf| then buf[i..] else []
    case WFull(buf, i) => if i <= |buf| then buf[i..] else []
    case WNap(buf, i) => if i <= |buf| then buf[i..] else []
    case _ => []
  }

  /** ... and what r's call has copied but not returned. */
  function Copied(j: Job): seq<int> { if j.RCopy? then j.got else [] }

  lemma OneByteLess(s: State, p: int)
    requires Can(s, StoreByte(p))
    ensures
      var s', j := After(s, StoreByte(p)), s.job[p];
      && j.WLoop? && j.i < |j.buf| && s'.r.stored == s.r.stored + [j.buf[j.i]]
      && ToWrite(j) == [j.buf[j.i]] + ToWrite(s'.job[p])
  {
    hide Do, Enabled, Cond, Empty, Full, NextReadopen, NextWriteopen;
  }

  lemma NothingStored(s: State, a: Action)
    requires Can(s, a) && !a.StoreByte? && !a.KilledWrite? && !a.ReadClosed?
    ensures
      var s' := After(s, a);
      && s'.r.stored == s.r.stored
      && (a.Begin? ==> s.job[a.p] == Nothing && ToWrite(s'.job[a.p]) == AskedBy(a, a.p))
      && (!a.Begin? ==> ToWrite(s'.job[a.p]) == ToWrite(s.job[a.p]) && AskedBy(a, a.p) == [])
  {
    hide Do, Enabled, Cond, Empty, Full, NextReadopen, NextWriteopen;
  }

  lemma WrittenOwn(s: State, a: Action, sent: seq<int>)
    requires Can(s, a) && LoneStep(a, a.p, a.p) && s.r.stored + ToWrite(s.job[a.p]) == sent
    ensures After(s, a).r.stored + ToWrite(After(s, a).job[a.p]) == sent + AskedBy(a, a.p)
  {
    hide Can, After, ToWrite;
    SameJobs(s, a);
    Assoc(sent, [], []);
    if a.StoreByte? {
      OneByteLess(s, a.p);
      Assoc(s.r.stored, [s.job[a.p].buf[s.job[a.p].i]], ToWrite(After(s, a).job[a.p]));
    } else {
      NothingStored(s, a);
      Assoc(s.r.stored, [], []);
      assert a.Begin? ==> ToWrite(s.job[a.p]) == [] by { NothingToWrite(); }
    }
  }

  lemma NothingToWrite()
    ensures ToWrite(Nothing) == []
  {
  }

  lemma WrittenStep(s: State, a: Action, w: int, r: int, sent: seq<int>)
    requires Can(s, a) && LoneStep(a, w, r) && 0 <= w < |s.job| && s.r.stored + ToWrite(s.job[w]) == sent
    ensures After(s, a).r.stored + ToWrite(After(s, a).job[w]) == sent + AskedBy(a, w)
  {
    hide Do, Enabled, Guard, Cond, ToWrite;
    if a.p == w { WrittenOwn(s, a, sent); }
  }

  lemma OneByteMore(s: State, r: int)
    requires Can(s, TakeByte(r))
    ensures
      var s', b := After(s, TakeByte(r)), s.r.data[Rem(s.r.nread, |s.r.data|)];
      s'.r.taken == s.r.taken + [b] && Copied(s'.job[r]) == Copied(s.job[r]) + [b]
  {
    hide Do, Enabled, Cond, Empty, Full, NextReadopen, NextWriteopen;
  }

  lemma NothingTaken(s: State, a: Action, r: int)
    requires Can(s, a) && !a.TakeByte? && 0 <= r < |s.job|
    ensures
      var s' := After(s, a);
      && s'.r.taken == s.r.taken && ReturnedBy(s, a, r) == (if a == ReadEnd(r) then Copied(s.job[r]) else [])
      && Copied(s'.job[r]) == if a == ReadEnd(r) then [] else Copied(s.job[r])
  {
    hide Do, Enabled, Cond, Empty, Full, NextReadopen, NextWriteopen;
  }

  lemma ReadStep(s: State, a: Action, w: int, r: int, received: seq<int>)
    requires Can(s, a) && LoneStep(a, w, r) && 0 <= r < |s.job| && received + Copied(s.job[r]) == s.r.taken
    ensures received + ReturnedBy(s, a, r) + Copied(After(s, a).job[r]) == After(s, a).r.taken
  {
    hide Can, After, Copied;
    if a.TakeByte? {
      OneByteMore(s, r);
      Assoc(received, Copied(s.job[r]), [s.r.data[Rem(s.r.nread, |s.r.data|)]]);
      Assoc(received, [], []);
    } else {
      NothingTaken(s, a, r);
      Assoc(received, [], []);
      Assoc(s.r.taken, [], []);
    }
  }

  lemma {:induction false} StreamKeeps(s: State, run: seq<Action>, w: int, r: int, sent: seq<int>, received: seq<int>)
    requires Legal(s, run) && 0 <= w < |s.job| && 0 <= r < |s.job|
    requires forall k | 0 <= k < |run| :: LoneStep(run[k], w, r)
    requires s.r.stored + ToWrite(s.job[w]) == sent && received + Copied(s.job[r]) == s.r.taken
    ensures Final(s, run).r.stored <= sent + Sent(run, w)
    ensures received + Received(s, run, r) <= Final(s, run).r.taken
    decreases |run|
  {
    hide Can, After, LoneStep, ToWrite, Copied, AskedBy, ReturnedBy;
    if run != [] {
      var a, s' := run[0], After(s, run[0]);
      SameJobs(s, a);
      WrittenStep(s, a, w, r, sent);
      ReadStep(s, a, w, r, received);
      StreamKeeps(s', run[1..], w, r, sent + AskedBy(a, w), received + ReturnedBy(s, a, r));
      Assoc(sent, AskedBy(a, w), Sent(run[1..], w));
      Assoc(received, ReturnedBy(s, a, r), Received(s', run[1..], r));
    }
  }

  /** With one writer, whose calls are not cut short, and one reader, in any interleaving: what the
      reader's calls have returned is a prefix of what the writer's calls were given. */
  lemma Stream(n: nat, size: nat, run: seq<Action>, w: int, r: int)
    requires Size(size) && Legal(Init(n, size), run) && 0 <= w < n && 0 <= r < n
    requires forall k | 0 <= k < |run| :: LoneStep(run[k], w, r)
    ensures Received(Init(n, size), run, r) <= Sent(run, w)
  {
    hide Can, After, LoneStep, Legal, Final, Sent, Received, Size;
    var s := Init(n, size);
    StreamKeeps(s, run, w, r, [], []);
    EveryRunFifo(n, size, run);
    assert [] + Sent(run, w) == Sent(run, w) && [] + Received(s, run, r) == Received(s, run, r);
  }

  // ---- the killed writer ----

  /** A killed writer's return loses a wakeup exactly if a reader is asleep, which takes a writer
      that has filled an empty pipe. */
  lemma KilledWriteIff(s: State, p: int)
    requires Inv(s) && Fifo(s.r) && Can(s, KilledWrite(p))
    ensures Awake(After(s, KilledWrite(p))) <==> forall q | 0 <= q < |s.job| :: !s.m.pc[q].Asleep? || !s.job[q].RNap?
    ensures Awake(After(s, KilledWrite(p))) || s.job[p].filled
  {
    var s' := After(s, KilledWrite(p));
    assert JobOk(s, p) && PcOk(s.m, p);
    EmptyFull(s.r);
    forall q | 0 <= q < |s.job| && s.m.pc[q].Asleep?
      ensures q != p && s'.m.pc[q] == s.m.pc[q] && s'.job[q] == s.job[q]
      ensures s.job[q].WNap? ==> Full(s.r) && s.readopen
      ensures s.job[q].RNap? ==> 0 in s.m.owed
    {
      assert JobOk(s, q) && PcOk(s.m, q);
    }
    assert forall q | 0 <= q < |s.job| && s'.m.pc[q].Asleep? :: s.m.pc[q].Asleep?;
  }

  lemma {:induction false} Extend(s: State, run: seq<Action>, a: Action)
    requires Legal(s, run) && Can(Final(s, run), a)
    ensures Legal(s, run + [a]) && Final(s, run + [a]) == After(Final(s, run), a)
    decreases |run|
  {
    hide Can, After;
    if run == [] {
      assert (run + [a])[1..] == [];
    } else {
      Extend(After(s, run[0]), run[1..], a);
      assert (run + [a])[1..] == run[1..] + [a];
    }
  }

  /** Process 0 sleeps in piperead and process 1 is in pipewrite with k bytes stored. */
  ghost predicate Stage(s: State, size: nat, k: nat)
  {
    && |s.job| == |s.m.pc| >= 2 && |s.r.data| == size && Fifo(s.r) && s.writeopen
    && s.job[0] == RNap(1) && s.m.pc[0] == Asleep(0)
    && s.m.pc[1] == In && s.job[1].WLoop? && s.job[1].i == k && |s.job[1].buf| == size + 1
    && |s.r.stored| == k && s.r.taken == []
  }

  /** Process 0 is in piperead, at the given place; nothing else has happened. */
  ghost predicate Reading(s: State, n: nat, size: nat, j: Job, c: Pc, lk: int, pt: int)
  {
    && n >= 2
    && s == Init(n, size).(job := Init(n, size).job[0 := j],
                           m := Init(n, size).m.(pc := Init(n, size).m.pc[0 := c], lk := lk, pt := pt))
    && Empty(s.r) && s.r.data != []
  }

  lemma EnteredReader(n: nat, size: nat) returns (run: seq<Action>)
    requires n >= 2 && Size(size)
    ensures Legal(Init(n, size), run) && Reading(Final(Init(n, size), run), n, size, RNap(1), Sl1(0), 0, -1)
  {
    var s := Init(n, size);
    run := [];
    Extend(s, run, Begin(0, REnter(1)));
    run := run + [Begin(0, REnter(1))];
    assert Reading(Final(s, run), n, size, REnter(1), Out, -1, -1);
    Extend(s, run, Enter(0));
    run := run + [Enter(0)];
    assert Reading(Final(s, run), n, size, RWait(1), In, 0, -1);
    Extend(s, run, EmptySleep(0));
    run := run + [EmptySleep(0)];
  }

  lemma DozingReader(n: nat, size: nat) returns (run: seq<Action>)
    requires n >= 2 && Size(size)
    ensures Legal(Init(n, size), run) && Reading(Final(Init(n, size), run), n, size, RNap(1), Sl2(0), 0, 0)
  {
    hide Legal, Final, Size;
    run := EnteredReader(n, size);
    Extend(Init(n, size), run, Inside(0, SleepLock(0)));
    run := run + [Inside(0, SleepLock(0))];
  }

  lemma DroppingReader(n: nat, size: nat) returns (run: seq<Action>)
    requires n >= 2 && Size(size)
    ensures Legal(Init(n, size), run) && Reading(Final(Init(n, size), run), n, size, RNap(1), Sl3(0), -1, 0)
  {
    hide Legal, Final, Size;
    run := DozingReader(n, size);
    Extend(Init(n, size), run, Inside(0, SleepDrop(0)));
    run := run + [Inside(0, SleepDrop(0))];
  }

  lemma SleepingReader(n: nat, size: nat) returns (run: seq<Action>)
    requires n >= 2 && Size(size)
    ensures Legal(Init(n, size), run) && Reading(Final(Init(n, size), run), n, size, RNap(1), Asleep(0), -1, -1)
  {
    hide Legal, Final, Size;
    run := DroppingReader(n, size);
    Extend(Init(n, size), run, Inside(0, SleepSwitch(0)));
    run := run + [Inside(0, SleepSwitch(0))];
  }

  lemma EnteredWriter(n: nat, size: nat) returns (run: seq<Action>)
    requires n >= 2 && Size(size)
    ensures Legal(Init(n, size), run) && Stage(Final(Init(n, size), run), size, 0)
  {
    var s := Init(n, size);
    InitInv(n, size);
    run := SleepingReader(n, size);
    var buf := seq(size + 1, i => 0);
    Extend(s, run, Begin(1, WEnter(buf)));
    run := run + [Begin(1, WEnter(buf))];
    Extend(s, run, Enter(1));
    run := run + [Enter(1)];
  }

  lemma {:induction false} StoredBytes(n: nat, size: nat, k: nat) returns (run: seq<Action>)
    requires n >= 2 && Size(size) && k <= size
    ensures Legal(Init(n, size), run) && Stage(Final(Init(n, size), run), size, k)
  {
    hide Legal, Final, Size, Fifo, Cond;
    if k == 0 {
      run := EnteredWriter(n, size);
    } else {
      run := StoredBytes(n, size, k - 1);
      var s := Final(Init(n, size), run);
      EmptyFull(s.r);
      StoreKeeps(s.r, s.job[1].buf[k - 1]);
      Extend(Init(n, size), run, StoreByte(1));
      run := run + [StoreByte(1)];
    }
  }

  /** A writer that fills the pipe and is killed leaves a reader asleep on a full pipe. */
  lemma LostWakeup(n: nat, size: nat) returns (run: seq<Action>)
    requires n >= 2 && Size(size)
    ensures Legal(Init(n, size), run) && !Awake(Final(Init(n, size), run))
  {
    hide Legal, Final, Fifo, Cond;
    run := StoredBytes(n, size, size);
    var s := Final(Init(n, size), run);
    EmptyFull(s.r);
    Extend(Init(n, size), run, KilledWrite(1));
    run := run + [KilledWrite(1)];
    var s' := Final(Init(n, size), run);
    assert s'.m.lk == -1 && s'.m.pc[0].Asleep? && s'.job[0].RNap? && !Empty(s'.r);
  }

  ghost predicate AllAwake(n: nat, size: nat, harmful: bool)
  {
    forall run | Legal(Init(n, size), run) && (harmful || AllHarmless(Init(n, size), run)) ::
      Awake(Final(Init(n, size), run))
  }

  /** Every run is free of lost wakeups if and only if killed writers that have filled an empty
      pipe do not return before a wakeup. */
  lemma AwakeIff(n: nat, size: nat, harmful: bool)
    requires n >= 2 && Size(size)
    ensures AllAwake(n, size, harmful) <==> !harmful
  {
    if harmful {
      var run := LostWakeup(n, size);
    } else {
      forall run | Legal(Init(n, size), run) && AllHarmless(Init(n, size), run)
        ensures Awake(Final(Init(n, size), run))
      {
        EveryRunAwake(n, size, run);
      }
    }
  }
}
