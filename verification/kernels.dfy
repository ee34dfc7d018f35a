/** The twenty contraction kernels of `MunermanTensorMultiplier`, each given by
    the index test it applies to a pair of keys, the output key it assembles
    and the dimension of the tensor it returns, written case by case as the
    program spells them; and the five-row table those cases follow. */
module Kernels {
  import opened SparseTensor

  /** The five products: the Cayley (0,2)- and (0,1)-contractions (methods 1
      and 2), the Scott (2,0)- and (1,0)-products (methods 3 and 4) and the
      combined (1,1)-product (method 5). */
  datatype Method = Cayley02 | Cayley01 | Scott20 | Scott10 | Combined11

  /** The method's number in the program's interface. */
  function Number(m: Method): int {
    match m
    case Cayley02 => 1
    case Cayley01 => 2
    case Scott20 => 3
    case Scott10 => 4
    case Combined11 => 5
  }

  /** The four supported rank pairings: 3 and 3 ("square"), 4 and 4, 3 and 4, 4 and 3. */
  datatype RankPair = Square | FourD | ThreeFour | FourThree

  function RankA(p: RankPair): nat {
    match p
    case Square => 3
    case FourD => 4
    case ThreeFour => 3
    case FourThree => 4
  }

  function RankB(p: RankPair): nat {
    match p
    case Square => 3
    case FourD => 4
    case ThreeFour => 4
    case FourThree => 3
  }

  /** Whether a kernel adds each product to what is already stored under the
      output key or overwrites it. */
  datatype Aggregation = Sum | Assign

  function AggregationOf(m: Method): Aggregation {
    match m
    case Cayley02 => Sum
    case Cayley01 => Sum
    case Scott20 => Assign
    case Scott10 => Assign
    case Combined11 => Sum
  }

  /** The index test of kernel (m, p) on an A key `a` and a B key `b`, as each
      kernel writes it with `i1..i4` for `a` and `j1..j4` for `b`. */
  predicate Matches(m: Method, p: RankPair, a: Key, b: Key)
    requires |a| == RankA(p) && |b| == RankB(p)
  {
    match m
    case Cayley02 =>
      (match p
       case Square => a[1] == b[0] && a[2] == b[1]
       case FourD => a[2] == b[0] && a[3] == b[1]
       case ThreeFour => a[1] == b[0] && a[2] == b[1]
       case FourThree => a[2] == b[0] && a[3] == b[1])
    case Cayley01 =>
      (match p
       case Square => a[2] == b[0]
       case FourD => a[3] == b[0]
       case ThreeFour => a[2] == b[0]
       case FourThree => a[3] == b[0])
    case Scott20 =>
      (match p
       case Square => a[1] == b[0] && a[2] == b[1]
       case FourD => a[2] == b[0] && a[3] == b[1]
       case ThreeFour => a[1] == b[0] && a[2] == b[1]
       case FourThree => a[2] == b[0] && a[3] == b[1])
    case Scott10 =>
      (match p
       case Square => a[2] == b[0]
       case FourD => a[3] == b[0]
       case ThreeFour => a[2] == b[0]
       case FourThree => a[3] == b[0])
    case Combined11 =>
      (match p
       case Square => a[2] == b[0] && a[1] == b[1]
       case FourD => a[3] == b[0] && a[2] == b[1]
       case ThreeFour => a[2] == b[0] && a[1] == b[1]
       case FourThree => a[3] == b[0] && a[2] == b[1])
  }

  /** The dimension of the tensor kernel (m, p) returns, as the program
      hard-codes it: rA + rB less a drop fixed by the method alone. */
  function OutDimension(m: Method, p: RankPair): (n: nat)
    ensures n == RankA(p) + RankB(p) - RankDrop(m)
  {
    match m
    case Cayley02 =>
      (match p case Square => 2 case FourD => 4 case ThreeFour => 3 case FourThree => 3)
    case Cayley01 =>
      (match p case Square => 4 case FourD => 6 case ThreeFour => 5 case FourThree => 5)
    case Scott20 =>
      (match p case Square => 4 case FourD => 6 case ThreeFour => 5 case FourThree => 5)
    case Scott10 =>
      (match p case Square => 5 case FourD => 7 case ThreeFour => 6 case FourThree => 6)
    case Combined11 =>
      (match p case Square => 3 case FourD => 5 case ThreeFour => 4 case FourThree => 4)
  }

  /** How many ranks the product loses against rA + rB. */
  function RankDrop(m: Method): nat {
    match m
    case Cayley02 => 4
    case Cayley01 => 2
    case Scott20 => 2
    case Scott10 => 1
    case Combined11 => 3
  }

  /** The output key kernel (m, p) assembles from a matching pair. Every
      kernel's key has as many components as the dimension it declares for
      its result, rA + rB less the method's rank drop. */
  function NewKey(m: Method, p: RankPair, a: Key, b: Key): (k: Key)
    requires |a| == RankA(p) && |b| == RankB(p)
    ensures |k| == OutDimension(m, p)
    ensures |k| == RankA(p) + RankB(p) - RankDrop(m)
  {
    match m
    case Cayley02 =>
      (match p
       case Square => [a[0], b[2]]
       case FourD => [a[0], a[1], b[2], b[3]]
       case ThreeFour => [a[0], b[2], b[3]]
       case FourThree => [a[0], a[1], b[2]])
    case Cayley01 =>
      (match p
       case Square => [a[0], a[1], b[1], b[2]]
       case FourD => [a[0], a[1], a[2], b[1], b[2], b[3]]
       case ThreeFour => [a[0], a[1], b[1], b[2], b[3]]
       case FourThree => [a[0], a[1], a[2], b[1], b[2]])
    case Scott20 =>
      (match p
       case Square => [a[0], a[1], a[2], b[2]]
       case FourD => [a[0], a[1], a[2], a[3], b[2], b[3]]
       case ThreeFour => [a[0], a[1], a[2], b[2], b[3]]
       case FourThree => [a[0], a[1], a[2], a[3], b[2]])
    case Scott10 =>
      (match p
       case Square => [a[0], a[1], a[2], b[1], b[2]]
       case FourD => [a[0], a[1], a[2], a[3], b[1], b[2], b[3]]
       case ThreeFour => [a[0], a[1], a[2], b[1], b[2], b[3]]
       case FourThree => [a[0], a[1], a[2], a[3], b[1], b[2]])
    case Combined11 =>
      (match p
       case Square => [a[0], a[1], b[2]]
       case FourD => [a[0], a[1], a[2], b[2], b[3]]
       case ThreeFour => [a[0], a[1], b[2], b[3]]
       case FourThree => [a[0], a[1], a[2], b[2]])
  }

  /** The method's index test for any ranks of at least two: the trailing
      indices of A against the leading indices of B. */
  predicate GenericMatch(m: Method, a: Key, b: Key)
    requires |a| >= 2 && |b| >= 2
  {
    var last := a[|a| - 1];
    var penult := a[|a| - 2];
    match m
    case Cayley02 => penult == b[0] && last == b[1]
    case Cayley01 => last == b[0]
    case Scott20 => penult == b[0] && last == b[1]
    case Scott10 => last == b[0]
    case Combined11 => last == b[0] && penult == b[1]
  }

  /** The method's output key for any ranks of at least two: what remains of
      A's key followed by B's free suffix. Methods 1 and 2 drop the matched
      positions, methods 3 and 4 keep the whole A key, method 5 drops A's
      last index only. */
  function GenericKey(m: Method, a: Key, b: Key): Key
    requires |a| >= 2 && |b| >= 2
  {
    match m
    case Cayley02 => a[..|a| - 2] + b[2..]
    case Cayley01 => a[..|a| - 1] + b[1..]
    case Scott20 => a + b[2..]
    case Scott10 => a + b[1..]
    case Combined11 => a[..|a| - 1] + b[2..]
  }

  /** Each of the twenty kernels is the table row of its method, instantiated
      at its rank pair. */
  lemma KernelFollowsTable(m: Method, p: RankPair, a: Key, b: Key)
    requires |a| == RankA(p) && |b| == RankB(p)
    ensures Matches(m, p, a, b) <==> GenericMatch(m, a, b)
    ensures NewKey(m, p, a, b) == GenericKey(m, a, b)
  {
    var k := NewKey(m, p, a, b);
    var g := GenericKey(m, a, b);
    assert |k| == |g|;
    forall i | 0 <= i < |k| ensures k[i] == g[i] {
    }
  }

  /** Methods 3 and 4 keep the whole A key in front of the output key, and the
      matched B indices repeat A's trailing ones, so a matching pair is
      recovered from its output key: two matching pairs never share one. */
  lemma {:induction false} ScottKeyDeterminesPair(m: Method, p: RankPair, a: Key, b: Key, a': Key, b': Key)
    requires AggregationOf(m) == Assign
    requires |a| == RankA(p) && |b| == RankB(p) && |a'| == RankA(p) && |b'| == RankB(p)
    requires Matches(m, p, a, b) && Matches(m, p, a', b')
    requires NewKey(m, p, a, b) == NewKey(m, p, a', b')
    ensures a == a' && b == b'
  {
    KernelFollowsTable(m, p, a, b);
    KernelFollowsTable(m, p, a', b');
    var k := NewKey(m, p, a, b);
    assert a == k[..|a|] == a';
    var c := if m == Scott20 then 2 else 1;
    assert b[c..] == k[|a|..] == b'[c..];
    forall i | 0 <= i < |b| ensures b[i] == b'[i] {
      if i >= c {
        assert b[i] == b[c..][i - c] && b'[i] == b'[c..][i - c];
      }
    }
  }

  /** For methods 1, 2 and 5 the same output key can come from different
      matching pairs: the eliminated indices do not reach the key. */
  lemma SummingKeysCollide(m: Method)
    requires AggregationOf(m) == Sum
    ensures exists a, b, a', b' ::
              |a| == 3 && |b| == 3 && |a'| == 3 && |b'| == 3 &&
              Matches(m, Square, a, b) && Matches(m, Square, a', b') &&
              (a, b) != (a', b') && NewKey(m, Square, a, b) == NewKey(m, Square, a', b')
  {
    var a, b, a', b' := [0, 0, 0], [0, 0, 0], [0, 1, 1], [1, 1, 0];
    if m == Cayley01 {
      a', b' := [0, 0, 1], [1, 0, 0];
    } else if m == Combined11 {
      a', b' := [0, 0, 1], [1, 0, 0];
    }
    assert Matches(m, Square, a, b) && Matches(m, Square, a', b');
    assert NewKey(m, Square, a, b) == NewKey(m, Square, a', b');
  }
}
