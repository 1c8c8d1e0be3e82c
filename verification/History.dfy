/** proc.c and sysproc.c: the ring of records of exited processes. */
module History {
  import opened Remainder

  const MAX_HISTORY := 100

  datatype Record = Record(pid: int, name: string, mem: int)

  function Min(a: int, b: int): int { if a < b then a else b }

  /** The records still kept, in the order of the exits. */
  function Recent(all: seq<Record>): (r: seq<Record>)
  {
    all[|all| - Min(|all|, MAX_HISTORY)..]
  }

  class History {
    var ring: seq<Record>
    var count: int
    var index: int
    ghost var all: seq<Record>      // of every exit so far

    ghost predicate Valid()
      reads this
    {
      && |ring| == MAX_HISTORY && count == Min(|all|, MAX_HISTORY) && index == Rem(|all|, MAX_HISTORY)
      && forall j {:trigger all[j]} | |all| - count <= j < |all| :: ring[Rem(j, MAX_HISTORY)] == all[j]
    }

    constructor (blank: Record)
      ensures all == [] && Valid()
    {
      ring := seq(MAX_HISTORY, i => blank);
      count, index, all := 0, 0, [];
    }

    /** exit's entry in the history. */
    method Exit(r: Record)
      requires Valid()
      modifies this
      ensures all == old(all) + [r] && Valid()
    {
      forall j | |all| - count <= j < |all| && j > |all| - MAX_HISTORY ensures Rem(j, MAX_HISTORY) != index {
        Apart(j, |all|, MAX_HISTORY);
      }
      ring := ring[index := r];
      RemPlus(|all|, 1, MAX_HISTORY);
      index := Rem(index + 1, MAX_HISTORY);
      if count < MAX_HISTORY {
        count := count + 1;
      }
      all := all + [r];
    }

    /** Where the i-th of the kept records is. */
    lemma NextRecord(i: nat)
      requires Valid() && i < count
      ensures
        var start: nat := if count < MAX_HISTORY then 0 else index;
        ring[Rem(start + i, MAX_HISTORY)] == all[|all| - count + i]
    {
      StartPlace(|all|, i);
      var r := all[|all| - count + i];
    }

    /** sys_gethistory: the oldest part of what is kept, as much as the caller asks for. A
        negative limit copies nothing and is returned. */
    method Gethistory(limit: int) returns (copied: int, buf: seq<Record>)
      requires Valid()
      ensures copied == Min(|Recent(all)|, limit)
      ensures buf == Recent(all)[..if copied < 0 then 0 else copied]
    {
      hide Rem;
      copied := if count < limit then count else limit;
      var start := if count < MAX_HISTORY then 0 else index;
      buf := [];
      var i := 0;
      while i < copied
        invariant |buf| == i && 0 <= i && i <= (if copied < 0 then 0 else copied)
        invariant forall j | 0 <= j < i :: buf[j] == all[|all| - count + j]
      {
        NextRecord(i);
        buf := buf + [ring[Rem(start + i, MAX_HISTORY)]];
        i := i + 1;
      }
    }
  }

  /** A full ring is read from the place after the newest record. */
  lemma StartPlace(n: nat, i: nat)
    ensures n >= MAX_HISTORY ==> Rem(Rem(n, MAX_HISTORY) + i, MAX_HISTORY) == Rem(n - MAX_HISTORY + i, MAX_HISTORY)
  {
    if n >= MAX_HISTORY { RemPlus(n - MAX_HISTORY, i, MAX_HISTORY); }
  }

  /** Pids are never given twice. */
  ghost predicate DistinctPids(all: seq<Record>)
  {
    forall i, j | 0 <= i < j < |all| :: all[i].pid != all[j].pid
  }

  /** The comment promises the most recent `limit` records. What is returned is that exactly
      when the limit is 0 or at least the number kept. */
  lemma MostRecentIff(all: seq<Record>, limit: nat)
    requires DistinctPids(all)
    ensures Recent(all)[..Min(|Recent(all)|, limit)] == Recent(all)[|Recent(all)| - Min(|Recent(all)|, limit)..]
      <==> limit == 0 || limit >= |Recent(all)|
  {
    var r := Recent(all);
    if 0 < limit < |r| {
      assert r[..limit][0] == r[0] && r[|r| - limit..][0] == r[|r| - limit];
      assert r[0] == all[|all| - |r|] && r[|r| - limit] == all[|all| - limit];
    }
  }

  /** Two exits and a limit of one: the first exit is returned. */
  lemma FirstOfTwo(a: Record, b: Record)
    requires a.pid != b.pid
    ensures Recent([a, b])[..1] == [a] != [b] == Recent([a, b])[1..]
  {
    assert Recent([a, b]) == [a, b];
  }
}
