/** What several components share. */
module Basics {

  /** The range of a uint. */
  const TWO32 := 0x1_0000_0000

  /** Blocks one file system call may write, and blocks in the log (param.h). */
  const MAXOPBLOCKS := 10
  const LOGSIZE := 3 * MAXOPBLOCKS

  datatype Option<+T> = None | Some(value: T)

  ghost function Range(a: int, b: int): (r: set<int>)
    ensures |r| == if a < b then b - a else 0
    ensures forall i :: i in r <==> a <= i < b
    decreases b - a
  {
    if a >= b then {} else Range(a, b - 1) + {b - 1}
  }

  lemma UnionSize<T>(a: set<T>, b: set<T>)
    ensures |a + b| == |a| + |b - a| <= |a| + |b|
  {
    assert a + b == a + (b - a);
    SubsetSize(b - a, b);
  }

  lemma SubsetSize<T>(a: set<T>, b: set<T>)
    requires a <= b
    ensures |a| <= |b| && (a != b ==> |a| < |b|)
  {
    assert b == a + (b - a);
    if a != b { assert b - a != {}; }
  }

  ghost predicate Distinct<T>(s: seq<T>)
  {
    forall i, j | 0 <= i < j < |s| :: s[i] != s[j]
  }

  /** Distinct values from a set are no more than it has. */
  lemma {:induction false} Pigeonhole<T>(s: seq<T>, all: set<T>)
    requires Distinct(s) && forall i | 0 <= i < |s| :: s[i] in all
    ensures |s| <= |all|
  {
    if s != [] {
      var last := s[|s| - 1];
      Pigeonhole(s[..|s| - 1], all - {last});
    }
  }

  /** A set that is not just {t} has another element. */
  lemma Another<T>(s: set<T>, t: T) returns (u: T)
    requires t in s && |s| != 1
    ensures u in s && u != t
  {
    var others := s - {t};
    assert |others| == |s| - 1;
    u :| u in others;
  }
}
