/**
 How many votes decide (consensus/util.go), and why two deciding sets always share an honest
 voter.
 */
module Quorums {
  import opened Base

  /** Go's integer division, which truncates towards zero. */
  function GoDiv(a: int, b: int): int
    requires b > 0
  {
    if a < 0 then -((-a) / b) else a / b
  }

  /** The number of faulty validators tolerated among `n`. */
  function MaxFaulty(n: nat): (f: int) {
    GoDiv(n - 1, 3)
  }

  function Quorum(n: nat): int {
    n - MaxFaulty(n)
  }

  /** n - f is the textbook 2f + 1 exactly when n is 3f + 1. */
  lemma QuorumIsTwoFPlusOne(n: nat)
    requires n > 0
    ensures Quorum(n) == 2 * MaxFaulty(n) + 1 <==> n % 3 == 1
    ensures 3 * MaxFaulty(n) < n
  {
    var f := MaxFaulty(n);
    assert n == 3 * f + 1 || n == 3 * f + 2 || n == 3 * f + 3;
  }

  /** Everybody must vote exactly in the networks of at most three validators. */
  lemma UnanimityIsForThree(n: nat)
    ensures Quorum(n) == n <==> n <= 3
    ensures n >= 4 ==> 1 <= MaxFaulty(n)
  {
  }

  /**
   Two quorums out of at most `n` validators share more than f members, so if at most f are not
   honest they share an honest one.
   */
  lemma QuorumsShareHonest(n: nat, all: set<Bytes>, honest: set<Bytes>, a: set<Bytes>, b: set<Bytes>)
    requires n > 0 && |all| <= n && |all - honest| <= MaxFaulty(n)
    requires a <= all && b <= all && |a| >= Quorum(n) && |b| >= Quorum(n)
    ensures exists v :: v in a && v in b && v in honest
  {
    QuorumIsTwoFPlusOne(n);
    UnionAndIntersection(a, b);
    SubsetSize(a + b, all);
    if a * b <= all - honest {
      SubsetSize(a * b, all - honest);
      assert false;
    }
    var v :| v in a * b && v !in all - honest;
  }

  /** A quorum keeps an honest member even if all faulty validators are in it. */
  lemma QuorumHasHonest(n: nat, all: set<Bytes>, honest: set<Bytes>, a: set<Bytes>)
    requires n > 0 && |all| <= n && |all - honest| <= MaxFaulty(n)
    requires a <= all && |a| >= Quorum(n)
    ensures exists v :: v in a && v in honest
  {
    QuorumsShareHonest(n, all, honest, a, a);
  }

  /** More than f validators staying out leave too few for a quorum. */
  lemma TooFewRemain(n: nat, all: set<Bytes>, out: set<Bytes>, a: set<Bytes>)
    requires |all| <= n && out <= all && |out| > MaxFaulty(n)
    requires a <= all && a !! out
    ensures |a| < Quorum(n)
  {
    SubsetSize(a + out, all);
  }
}
