/** begin_op / log_write / end_op as steps of any number of processes, each step what one
    process does while it holds log.lock (log_write's size test is outside the lock and is
    a step of its own). `sleep` and `wakeup` on &log are the moves to and from Asleep. */
module LogProtocol {
  import opened Basics

  datatype Status =
    | Idle
    | Trying                              // at the top of begin_op's loop
    | Asleep                              // in begin_op, sleeping on &log
    | InOp(spent: nat)                    // between begin_op and end_op; blocks it added to the log
    | Logging(spent: nat, blockno: nat)   // in log_write, past the size test
    | Committing(cleared: bool)           // in end_op, running commit()

  /** `size` is log.size; an operation adds at most `budget` blocks to the log. */
  datatype Config = Config(size: int, budget: nat)

  datatype State = State(lh: seq<nat>, outstanding: int, committing: bool, panicked: bool, procs: seq<Status>)

  datatype Action =
    | Enter(p: nat)
    | Begin(p: nat)
    | Test(p: nat, blockno: nat)
    | Append(p: nat)
    | End(p: nat)
    | Clear(p: nat)
    | Finish(p: nat)

  function Wake(procs: seq<Status>): (r: seq<Status>)
    ensures |r| == |procs|
    ensures forall i | 0 <= i < |procs| :: r[i] == if procs[i].Asleep? then Trying else procs[i]
  {
    seq(|procs|, i requires 0 <= i < |procs| => if procs[i].Asleep? then Trying else procs[i])
  }

  predicate Enabled(c: Config, s: State, a: Action)
  {
    && !s.panicked && a.p < |s.procs|
    && match a
       case Enter(p) => s.procs[p].Idle?
       case Begin(p) => s.procs[p].Trying?
       case Test(p, b) => s.procs[p].InOp? && (b in s.lh || s.procs[p].spent < c.budget)
       case Append(p) => s.procs[p].Logging?
       case End(p) => s.procs[p].InOp?
       case Clear(p) => s.procs[p].Committing? && !s.procs[p].cleared
       case Finish(p) => s.procs[p].Committing? && s.procs[p].cleared
  }

  function Step(c: Config, s: State, a: Action): (t: State)
    requires Enabled(c, s, a)
  {
    match a
    case Enter(p) => s.(procs := s.procs[p := Trying])
    case Begin(p) =>
      if s.committing || |s.lh| + (s.outstanding + 1) * MAXOPBLOCKS > LOGSIZE
      then s.(procs := s.procs[p := Asleep])
      else s.(outstanding := s.outstanding + 1, procs := s.procs[p := InOp(0)])
    case Test(p, b) =>
      if |s.lh| >= LOGSIZE || |s.lh| >= c.size - 1 || s.outstanding < 1
      then s.(panicked := true)
      else s.(procs := s.procs[p := Logging(s.procs[p].spent, b)])
    case Append(p) =>
      var b := s.procs[p].blockno;
      if b in s.lh
      then s.(procs := s.procs[p := InOp(s.procs[p].spent)])
      else s.(lh := s.lh + [b], procs := s.procs[p := InOp(s.procs[p].spent + 1)])
    case End(p) =>
      if s.committing then s.(panicked := true)
      else if s.outstanding - 1 == 0
      then s.(outstanding := 0, committing := true, procs := s.procs[p := Committing(false)])
      else s.(outstanding := s.outstanding - 1, procs := Wake(s.procs[p := Idle]))
    case Clear(p) => s.(lh := [], procs := s.procs[p := Committing(true)])
    case Finish(p) => s.(committing := false, procs := Wake(s.procs[p := Idle]))
  }

  predicate Legal(c: Config, s: State, run: seq<Action>)
    decreases |run|
  {
    run == [] || (Enabled(c, s, run[0]) && Legal(c, Step(c, s, run[0]), run[1..]))
  }

  function After(c: Config, s: State, run: seq<Action>): (t: State)
    requires Legal(c, s, run)
    decreases |run|
  {
    if run == [] then s else After(c, Step(c, s, run[0]), run[1..])
  }

  function Init(n: nat): (s: State)
  {
    State([], 0, false, false, seq(n, _ => Idle))
  }

  // ---- counting over processes ----

  function Active(x: Status): (r: nat)
  {
    if x.InOp? || x.Logging? then 1 else 0
  }

  /** Log space still reserved by one process. */
  function Unspent(x: Status): (r: int)
  {
    if x.InOp? || x.Logging? then MAXOPBLOCKS - x.spent else 0
  }

  function SumActive(procs: seq<Status>): (r: nat)
  {
    if procs == [] then 0 else Active(procs[0]) + SumActive(procs[1..])
  }

  function SumUnspent(procs: seq<Status>): (r: int)
  {
    if procs == [] then 0 else Unspent(procs[0]) + SumUnspent(procs[1..])
  }

  lemma {:induction false} SumUpdate(procs: seq<Status>, p: nat, x: Status)
    requires p < |procs|
    ensures SumActive(procs[p := x]) == SumActive(procs) - Active(procs[p]) + Active(x)
    ensures SumUnspent(procs[p := x]) == SumUnspent(procs) - Unspent(procs[p]) + Unspent(x)
  {
    if p == 0 {
      assert procs[p := x][1..] == procs[1..];
    } else {
      assert procs[p := x][1..] == procs[1..][p - 1 := x];
      SumUpdate(procs[1..], p - 1, x);
    }
  }

  lemma {:induction false} SumWake(procs: seq<Status>)
    ensures SumActive(Wake(procs)) == SumActive(procs)
    ensures SumUnspent(Wake(procs)) == SumUnspent(procs)
  {
    if procs != [] {
      assert Wake(procs)[1..] == Wake(procs[1..]);
      SumWake(procs[1..]);
    }
  }

  /** Every active process adds to both sums. */
  lemma {:induction false} SumAtLeast(procs: seq<Status>, p: nat)
    requires p < |procs|
    requires forall i | 0 <= i < |procs| :: Active(procs[i]) == 1 ==> procs[i].spent <= MAXOPBLOCKS
    ensures SumActive(procs) >= Active(procs[p]) && SumUnspent(procs) >= Unspent(procs[p]) >= 0
  {
    if |procs| > 1 {
      SumAtLeast(procs[1..], if p == 0 then 0 else p - 1);
    }
  }

  lemma {:induction false} SumSlack(procs: seq<Status>, p: nat)
    requires p < |procs|
    requires forall i | 0 <= i < |procs| :: Active(procs[i]) == 1 ==> procs[i].spent < MAXOPBLOCKS
    ensures SumUnspent(procs) >= SumActive(procs)
    ensures SumUnspent(procs) - Unspent(procs[p]) >= SumActive(procs) - Active(procs[p])
  {
    if |procs| > 1 {
      SumSlack(procs[1..], if p == 0 then 0 else p - 1);
    }
  }

  lemma {:induction false} SumNone(procs: seq<Status>)
    requires SumActive(procs) == 0
    ensures SumUnspent(procs) == 0
    ensures forall i | 0 <= i < |procs| :: Active(procs[i]) == 0
  {
    if procs != [] { SumNone(procs[1..]); }
  }

  lemma {:induction false} SumSome(procs: seq<Status>) returns (p: nat)
    requires SumActive(procs) > 0
    ensures p < |procs| && Active(procs[p]) == 1
  {
    if Active(procs[0]) == 1 { p := 0; } else { p := SumSome(procs[1..]); p := p + 1; }
  }

  // ---- the invariant ----

  ghost predicate Inv(c: Config, s: State)
  {
    && s.outstanding == SumActive(s.procs)
    && |s.lh| + SumUnspent(s.procs) <= LOGSIZE
    && Distinct(s.lh)
    && (forall i | 0 <= i < |s.procs| :: Active(s.procs[i]) == 1 ==> s.procs[i].spent <= c.budget)
    && (forall i | 0 <= i < |s.procs| && s.procs[i].Logging? ::
          s.procs[i].blockno in s.lh || s.procs[i].spent < c.budget)
    && (s.committing ==> s.outstanding == 0 && exists i :: 0 <= i < |s.procs| && s.procs[i].Committing?)
    && (forall i | 0 <= i < |s.procs| && s.procs[i].Committing? :: s.committing && (s.procs[i].cleared ==> s.lh == []))
    && (forall i, j | 0 <= i < j < |s.procs| :: !(s.procs[i].Committing? && s.procs[j].Committing?))
    && (s.outstanding == 0 && !s.committing ==> s.lh == [])
    && (forall i | 0 <= i < |s.procs| && s.procs[i].Asleep? :: s.committing || s.outstanding > 0)
  }

  lemma NotActive(c: Config, s: State, p: nat, x: Status)
    requires Inv(c, s) && c.budget <= MAXOPBLOCKS && p < |s.procs|
    requires s.procs[p].Idle? || s.procs[p].Trying? || s.procs[p].Asleep?
    requires x.Idle? || x.Trying? || (x.Asleep? && (s.committing || s.outstanding > 0))
    ensures Inv(c, s.(procs := s.procs[p := x]))
  {
    SumUpdate(s.procs, p, x);
    var t := s.procs[p := x];
    if s.committing {
      var i :| 0 <= i < |s.procs| && s.procs[i].Committing?;
      assert t[i].Committing?;
    }
  }

  lemma WakeKeeps(c: Config, s: State)
    requires Inv(c, s)
    ensures Inv(c, s.(procs := Wake(s.procs)))
  {
    SumWake(s.procs);
    if s.committing {
      var i :| 0 <= i < |s.procs| && s.procs[i].Committing?;
      assert Wake(s.procs)[i].Committing?;
    }
  }

  lemma BeginKeeps(c: Config, s: State, p: nat)
    requires Inv(c, s) && c.budget <= MAXOPBLOCKS && Enabled(c, s, Begin(p))
    ensures Inv(c, Step(c, s, Begin(p)))
  {
    if s.committing || |s.lh| + (s.outstanding + 1) * MAXOPBLOCKS > LOGSIZE {
      NotActive(c, s, p, Asleep);
    } else {
      SumUpdate(s.procs, p, InOp(0));
      UnspentBound(s.procs);
    }
  }

  /** No process reserves more than MAXOPBLOCKS, which is what begin_op counts. */
  lemma {:induction false} UnspentBound(procs: seq<Status>)
    ensures SumUnspent(procs) <= MAXOPBLOCKS * SumActive(procs)
  {
    if procs != [] { UnspentBound(procs[1..]); }
  }

  lemma TestKeeps(c: Config, s: State, a: Action)
    requires Inv(c, s) && c.budget <= MAXOPBLOCKS && Enabled(c, s, a) && a.Test?
    ensures Inv(c, Step(c, s, a))
    ensures Step(c, s, a).panicked <==> |s.lh| >= LOGSIZE || |s.lh| >= c.size - 1
  {
    SumAtLeast(s.procs, a.p);
    SumUpdate(s.procs, a.p, Logging(s.procs[a.p].spent, a.blockno));
  }

  lemma AppendKeeps(c: Config, s: State, p: nat)
    requires Inv(c, s) && c.budget <= MAXOPBLOCKS && Enabled(c, s, Append(p))
    ensures Inv(c, Step(c, s, Append(p)))
  {
    SumAtLeast(s.procs, p);
    SumUpdate(s.procs, p, Step(c, s, Append(p)).procs[p]);
  }

  lemma EndKeeps(c: Config, s: State, p: nat)
    requires Inv(c, s) && c.budget <= MAXOPBLOCKS && Enabled(c, s, End(p))
    ensures Inv(c, Step(c, s, End(p))) && !Step(c, s, End(p)).panicked
  {
    SumAtLeast(s.procs, p);
    if s.outstanding == 1 {
      SumUpdate(s.procs, p, Committing(false));
      var t := s.procs[p := Committing(false)];
      assert t[p].Committing?;
    } else {
      SumUpdate(s.procs, p, Idle);
      var t := s.(outstanding := s.outstanding - 1, procs := s.procs[p := Idle]);
      assert Inv(c, t);
      WakeKeeps(c, t);
    }
  }

  lemma CommitKeeps(c: Config, s: State, a: Action)
    requires Inv(c, s) && c.budget <= MAXOPBLOCKS && Enabled(c, s, a) && (a.Clear? || a.Finish?)
    ensures Inv(c, Step(c, s, a))
  {
    SumNone(s.procs);
    if a.Clear? {
      SumUpdate(s.procs, a.p, Committing(true));
      assert Step(c, s, a).procs[a.p].Committing?;
    } else {
      SumUpdate(s.procs, a.p, Idle);
      SumWake(s.procs[a.p := Idle]);
    }
  }

  lemma StepKeeps(c: Config, s: State, a: Action)
    requires Inv(c, s) && c.budget <= MAXOPBLOCKS && Enabled(c, s, a)
    ensures Inv(c, Step(c, s, a))
    ensures Step(c, s, a).panicked <==> a.Test? && (|s.lh| >= LOGSIZE || |s.lh| >= c.size - 1)
  {
    match a
    case Enter(p) => NotActive(c, s, p, Trying);
    case Begin(p) => BeginKeeps(c, s, p);
    case Test(p, b) => TestKeeps(c, s, a);
    case Append(p) => AppendKeeps(c, s, p);
    case End(p) => EndKeeps(c, s, p);
    case _ => CommitKeeps(c, s, a);
  }

  /** The reservation protocol, over every interleaving of every number of processes. */
  lemma {:induction false} RunKeeps(c: Config, s: State, run: seq<Action>)
    requires Inv(c, s) && c.budget <= MAXOPBLOCKS && Legal(c, s, run)
    ensures Inv(c, After(c, s, run))
    decreases |run|
  {
    if run != [] {
      StepKeeps(c, s, run[0]);
      RunKeeps(c, Step(c, s, run[0]), run[1..]);
    }
  }

  lemma {:induction false} InitNone(n: nat)
    ensures SumActive(seq(n, _ => Idle)) == 0
  {
    if n > 0 {
      assert seq(n, _ => Idle)[1..] == seq(n - 1, _ => Idle);
      InitNone(n - 1);
    }
  }

  lemma InitInv(c: Config, n: nat)
    ensures Inv(c, Init(n))
  {
    InitNone(n);
    SumNone(Init(n).procs);
  }

  /** The protocol's promises, in the source's terms: the log and what operations may still
      add fit in LOGSIZE, no block is listed twice, nothing is outstanding during a commit,
      end_op does not panic, and a process asleep in begin_op has a commit or another
      operation to wake it. */
  ghost predicate Sound(c: Config, s: State)
  {
    && |s.lh| + SumUnspent(s.procs) <= LOGSIZE && |s.lh| <= LOGSIZE
    && Distinct(s.lh)
    && s.outstanding == SumActive(s.procs)
    && (s.committing ==> s.outstanding == 0)
    && (forall p | Enabled(c, s, End(p)) :: !Step(c, s, End(p)).panicked)
    && (Asleep in s.procs ==> s.committing || s.outstanding > 0)
  }

  lemma InvSound(c: Config, s: State)
    requires Inv(c, s) && c.budget <= MAXOPBLOCKS
    ensures Sound(c, s)
  {
    if |s.procs| > 0 { SumAtLeast(s.procs, 0); }
    forall p | Enabled(c, s, End(p)) ensures !Step(c, s, End(p)).panicked { StepKeeps(c, s, End(p)); }
  }

  lemma EveryReachableState(c: Config, n: nat, run: seq<Action>)
    requires c.budget <= MAXOPBLOCKS && Legal(c, Init(n), run)
    ensures Sound(c, After(c, Init(n), run))
  {
    InitInv(c, n);
    RunKeeps(c, Init(n), run);
    InvSound(c, After(c, Init(n), run));
  }

  // ---- sleepers can always be woken ----

  lemma {:induction false} RunConcat(c: Config, s: State, r1: seq<Action>, r2: seq<Action>)
    requires Legal(c, s, r1) && Legal(c, After(c, s, r1), r2)
    ensures Legal(c, s, r1 + r2) && After(c, s, r1 + r2) == After(c, After(c, s, r1), r2)
    decreases |r1|
  {
    if r1 == [] {
      assert r1 + r2 == r2;
    } else {
      assert (r1 + r2)[1..] == r1[1..] + r2;
      RunConcat(c, Step(c, s, r1[0]), r1[1..], r2);
    }
  }

  lemma OneStep(c: Config, s: State, a: Action)
    requires Enabled(c, s, a)
    ensures Legal(c, s, [a]) && After(c, s, [a]) == Step(c, s, a)
  {
    assert [a][1..] == [];
  }

  lemma ThenStep(c: Config, s: State, run: seq<Action>, a: Action)
    requires Legal(c, s, run) && Enabled(c, After(c, s, run), a)
    ensures Legal(c, s, run + [a]) && After(c, s, run + [a]) == Step(c, After(c, s, run), a)
  {
    OneStep(c, After(c, s, run), a);
    RunConcat(c, s, run, [a]);
  }

  /** A running commit can finish and then nobody sleeps. */
  lemma CommitWakes(c: Config, s: State, p: nat) returns (run: seq<Action>)
    requires p < |s.procs| && s.procs[p].Committing? && !s.panicked
    ensures Legal(c, s, run) && Asleep !in After(c, s, run).procs
    ensures forall a | a in run :: a.Clear? || a.Finish?
  {
    run := [];
    if !s.procs[p].cleared {
      OneStep(c, s, Clear(p));
      run := [Clear(p)];
    }
    ThenStep(c, s, run, Finish(p));
    run := run + [Finish(p)];
  }

  /** So can an operation that ends, if need be with the commit it then runs. */
  lemma EndWakes(c: Config, s: State, p: nat) returns (run: seq<Action>)
    requires p < |s.procs| && s.procs[p].InOp? && !s.panicked && !s.committing
    ensures Legal(c, s, run) && Asleep !in After(c, s, run).procs
    ensures forall a | a in run :: a.End? || a.Clear? || a.Finish?
  {
    OneStep(c, s, End(p));
    run := [End(p)];
    var t := Step(c, s, End(p));
    if t.committing {
      var more := CommitWakes(c, t, p);
      RunConcat(c, s, run, more);
      run := run + more;
    }
  }

  /** No wakeup is lost: from every reachable state some processes that are not asleep
      can, without starting anything new, bring about a state in which nobody sleeps. */
  lemma SleepersCanWake(c: Config, s: State) returns (run: seq<Action>)
    requires Inv(c, s) && c.budget <= MAXOPBLOCKS && !s.panicked && Asleep in s.procs
    ensures Legal(c, s, run) && Asleep !in After(c, s, run).procs
    ensures forall a | a in run :: !a.Enter? && !a.Begin? && !a.Test?
  {
    if s.committing {
      var p :| 0 <= p < |s.procs| && s.procs[p].Committing?;
      run := CommitWakes(c, s, p);
    } else {
      var p := SumSome(s.procs);
      if s.procs[p].InOp? {
        run := EndWakes(c, s, p);
      } else {
        OneStep(c, s, Append(p));
        var more := EndWakes(c, Step(c, s, Append(p)), p);
        RunConcat(c, s, [Append(p)], more);
        run := [Append(p)] + more;
      }
    }
  }

  // ---- when log_write's "too big a transaction" can happen ----

  /** With a budget below MAXOPBLOCKS every operation leaves a unit unspent, and the last
      of several to end has seen another one give its own back. */
  ghost predicate Slack(s: State)
  {
    |s.lh| + SumUnspent(s.procs) <= LOGSIZE - (if SumActive(s.procs) == 1 then 1 else 0)
  }

  lemma SlackStep(c: Config, s: State, a: Action)
    requires Inv(c, s) && Slack(s) && c.budget < MAXOPBLOCKS && Enabled(c, s, a)
    ensures Slack(Step(c, s, a))
  {
    var t := Step(c, s, a);
    StepKeeps(c, s, a);
    SumAtLeast(s.procs, a.p);
    SumSlack(s.procs, a.p);
    match a
    case Begin(p) =>
      SumUpdate(s.procs, p, t.procs[p]);
      UnspentBound(s.procs);
      if SumActive(s.procs) == 0 { SumNone(s.procs); }
    case End(p) =>
      SumUpdate(s.procs, p, Idle);
      SumUpdate(s.procs, p, Committing(false));
      SumWake(s.procs[p := Idle]);
    case Finish(p) =>
      SumUpdate(s.procs, p, Idle);
      SumWake(s.procs[p := Idle]);
    case Test(p, b) =>
      SumUpdate(s.procs, p, t.procs[p]);
    case _ =>
      SumUpdate(s.procs, a.p, t.procs[a.p]);
  }

  lemma SlackTest(c: Config, s: State, a: Action)
    requires Inv(c, s) && Slack(s) && c.budget < MAXOPBLOCKS && c.size >= LOGSIZE && Enabled(c, s, a) && a.Test?
    ensures |s.lh| < LOGSIZE - 1
  {
    SumAtLeast(s.procs, a.p);
    SumSlack(s.procs, a.p);
  }

  lemma {:induction false} SlackRun(c: Config, s: State, run: seq<Action>)
    requires Inv(c, s) && Slack(s) && !s.panicked && c.budget < MAXOPBLOCKS && c.size >= LOGSIZE
    requires Legal(c, s, run)
    ensures !After(c, s, run).panicked
    decreases |run|
  {
    if run != [] {
      StepKeeps(c, s, run[0]);
      SlackStep(c, s, run[0]);
      if run[0].Test? { SlackTest(c, s, run[0]); }
      SlackRun(c, Step(c, s, run[0]), run[1..]);
    }
  }

  /** p logs k blocks that are not in the log yet. */
  function Fill(p: nat, first: nat, k: nat): (run: seq<Action>)
    decreases k
  {
    if k == 0 then [] else [Test(p, first), Append(p)] + Fill(p, first + 1, k - 1)
  }

  lemma {:induction false} FillRun(c: Config, s: State, p: nat, first: nat, k: nat)
    requires p < |s.procs| && s.procs[p].InOp? && s.procs[p].spent + k <= c.budget
    requires !s.panicked && s.outstanding >= 1
    requires |s.lh| + k <= LOGSIZE && |s.lh| + k <= c.size - 1
    requires forall b | b in s.lh :: b < first
    ensures
      var run := Fill(p, first, k);
      && Legal(c, s, run)
      && var t := After(c, s, run);
         && t == s.(lh := t.lh, procs := s.procs[p := InOp(s.procs[p].spent + k)])
         && |t.lh| == |s.lh| + k && s.lh <= t.lh && forall b | b in t.lh :: b < first + k
    decreases k
  {
    var run := Fill(p, first, k);
    if k == 0 {
      assert s.procs[p := InOp(s.procs[p].spent)] == s.procs;
    } else {
      var s1 := Step(c, s, Test(p, first));
      var s2 := Step(c, s1, Append(p));
      assert s2 == s.(lh := s.lh + [first], procs := s.procs[p := InOp(s.procs[p].spent + 1)]);
      FillRun(c, s2, p, first + 1, k - 1);
      var rest := Fill(p, first + 1, k - 1);
      OneStep(c, s, Test(p, first));
      ThenStep(c, s, [Test(p, first)], Append(p));
      assert [Test(p, first)] + [Append(p)] + rest == run;
      RunConcat(c, s, [Test(p, first)] + [Append(p)], rest);
      assert s2.procs[p := InOp(s2.procs[p].spent + (k - 1))] == s.procs[p := InOp(s.procs[p].spent + k)];
    }
  }

  lemma BeginOp(c: Config, s: State, p: nat)
    requires p < |s.procs| && s.procs[p].Idle? && !s.panicked && !s.committing
    requires |s.lh| + (s.outstanding + 1) * MAXOPBLOCKS <= LOGSIZE
    ensures
      var run := [Enter(p), Begin(p)];
      && Legal(c, s, run)
      && After(c, s, run) == s.(outstanding := s.outstanding + 1, procs := s.procs[p := InOp(0)])
  {
    OneStep(c, s, Enter(p));
    ThenStep(c, s, [Enter(p)], Begin(p));
    assert [Enter(p)] + [Begin(p)] == [Enter(p), Begin(p)];
    assert s.procs[p := Trying][p := InOp(0)] == s.procs[p := InOp(0)];
  }

  /** One whole operation that adds k blocks while another operation is open. */
  lemma WholeOp(c: Config, s: State, p: nat, first: nat, k: nat) returns (run: seq<Action>, t: State)
    requires p < |s.procs| && s.procs[p].Idle? && !s.panicked && !s.committing && Asleep !in s.procs
    requires s.outstanding == 1 && k <= c.budget && forall b | b in s.lh :: b < first
    requires |s.lh| + 2 * MAXOPBLOCKS <= LOGSIZE <= c.size && k <= MAXOPBLOCKS
    ensures Legal(c, s, run) && After(c, s, run) == t
    ensures t == s.(lh := t.lh) && |t.lh| == |s.lh| + k && forall b | b in t.lh :: b < first + k
  {
    BeginOp(c, s, p);
    run := [Enter(p), Begin(p)];
    var s1 := After(c, s, run);
    FillRun(c, s1, p, first, k);
    RunConcat(c, s, run, Fill(p, first, k));
    run := run + Fill(p, first, k);
    ThenStep(c, s, run, End(p));
    run := run + [End(p)];
    t := After(c, s, run);
    assert t.procs == s.procs;
  }

  /** The first process opens an operation and the second one completes one of 10 blocks. */
  lemma TenLogged(c: Config, n: nat) returns (run: seq<Action>, t: State)
    requires n >= 2 && c.budget == MAXOPBLOCKS && c.size >= LOGSIZE
    ensures Legal(c, Init(n), run) && After(c, Init(n), run) == t
    ensures |t.procs| >= 2 && t.procs[0] == InOp(0) && t.procs[1].Idle? && t.outstanding == 1
    ensures !t.panicked && !t.committing && |t.lh| == 10 && forall b | b in t.lh :: b < 10
  {
    var s := Init(n);
    BeginOp(c, s, 0);
    run := [Enter(0), Begin(0)];
    var more;
    more, t := WholeOp(c, After(c, s, run), 1, 0, 10);
    RunConcat(c, s, run, more);
    run := run + more;
  }

  /** From there both use up their reservation, and the next log_write, even of a block
      already logged, finds the log full. */
  lemma TenLoggedPanics(c: Config, s: State) returns (run: seq<Action>)
    requires c.budget == MAXOPBLOCKS && c.size >= LOGSIZE
    requires |s.procs| >= 2 && s.procs[0] == InOp(0) && s.procs[1].Idle? && s.outstanding == 1
    requires !s.panicked && !s.committing && |s.lh| == 10 && forall b | b in s.lh :: b < 10
    ensures Legal(c, s, run) && After(c, s, run).panicked
  {
    BeginOp(c, s, 1);
    run := [Enter(1), Begin(1)];
    FillRun(c, After(c, s, run), 1, 10, 10);
    RunConcat(c, s, run, Fill(1, 10, 10));
    run := run + Fill(1, 10, 10);
    var k := if c.size == LOGSIZE then 9 else 10;
    FillRun(c, After(c, s, run), 0, 20, k);
    RunConcat(c, s, run, Fill(0, 20, k));
    run := run + Fill(0, 20, k);
    var u := After(c, s, run);
    ThenStep(c, s, run, Test(0, u.lh[0]));
    run := run + [Test(0, u.lh[0])];
  }

  lemma FullBudgetPanics(c: Config, n: nat) returns (run: seq<Action>)
    requires n >= 2 && c.budget == MAXOPBLOCKS && c.size >= LOGSIZE
    ensures Legal(c, Init(n), run) && After(c, Init(n), run).panicked
  {
    var t;
    run, t := TenLogged(c, n);
    var more := TenLoggedPanics(c, t);
    RunConcat(c, Init(n), run, more);
    run := run + more;
  }

  lemma PanicFree(c: Config, n: nat, run: seq<Action>)
    requires c.budget < MAXOPBLOCKS && c.size >= LOGSIZE && Legal(c, Init(n), run)
    ensures !After(c, Init(n), run).panicked
  {
    InitInv(c, n);
    InitNone(n);
    SumNone(Init(n).procs);
    SlackRun(c, Init(n), run);
  }

  /** log_write never panics in any run exactly when no operation uses its whole
      reservation: begin_op reserves against LOGSIZE, but log_write tests for a full log
      before it looks whether the block is already there. */
  lemma PanicFreeIff(c: Config, n: nat)
    requires n >= 2 && c.budget <= MAXOPBLOCKS && c.size >= LOGSIZE
    ensures (forall run | Legal(c, Init(n), run) :: !After(c, Init(n), run).panicked) <==> c.budget < MAXOPBLOCKS
  {
    if c.budget < MAXOPBLOCKS {
      forall run | Legal(c, Init(n), run) ensures !After(c, Init(n), run).panicked { PanicFree(c, n, run); }
    } else {
      var run := FullBudgetPanics(c, n);
    }
  }
}
