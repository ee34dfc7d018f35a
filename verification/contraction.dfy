/** The loop every kernel of `MunermanTensorMultiplier` runs: over each entry
    of A, over each entry of B, test the kernel's index predicate and, on a
    match, write `valA * valB` under the assembled key of a fresh dictionary,
    either adding it to what is there or overwriting it. The loop is stated
    once for any test and key rule, and each of the twenty kernels is that
    loop run with its own rule. */
module Contraction {
  import opened SparseTensor
  import opened Kernels

  /** An (A entry, B entry) pair the loops visit. */
  type Pair = (Entry, Entry)

  /** The inner loop's pairs for one A entry. */
  function Row(ea: Entry, db: Data): seq<Pair> {
    seq(|db|, j requires 0 <= j < |db| => (ea, db[j]))
  }

  /** Every (A entry, B entry) pair, in the order the two nested loops visit them. */
  function Pairs(da: Data, db: Data): seq<Pair>
    decreases |da|
  {
    if |da| == 0 then [] else Row(da[0], db) + Pairs(da[1..], db)
  }

  /** The two loops visit exactly the pairs of an A entry and a B entry. */
  lemma {:induction false} PairsMembers(da: Data, db: Data)
    ensures forall x :: x in Pairs(da, db) <==> x.0 in da && x.1 in db
    decreases |da|
  {
    if |da| > 0 {
      var ps := Pairs(da, db);
      PairsMembers(da[1..], db);
      assert ps == Row(da[0], db) + Pairs(da[1..], db);
      forall x ensures x in ps <==> x.0 in da && x.1 in db {
        if x in Row(da[0], db) {
          var j :| 0 <= j < |db| && Row(da[0], db)[j] == x;
        }
        if x.0 in da && x.1 in db {
          if x.0 != da[0] {
            var i :| 0 <= i < |da| && da[i] == x.0;
            assert da[1..][i - 1] == x.0;
          } else {
            var j :| 0 <= j < |db| && db[j] == x.1;
            assert Row(da[0], db)[j] == x;
          }
        }
      }
    }
  }

  /** Where row `i` of a row-major layout of rows of width `w` starts. */
  function RowStart(i: nat, w: nat): nat {
    if i == 0 then 0 else RowStart(i - 1, w) + w
  }

  lemma {:induction false} RowStartIsProduct(i: nat, w: nat)
    ensures RowStart(i, w) == i * w
  {
    if i > 0 {
      RowStartIsProduct(i - 1, w);
      assert i * w == (i - 1) * w + w;
    }
  }

  /** A position in row `i < n` lies before where row `n` starts. */
  lemma {:induction false} RowStartBound(i: nat, j: nat, n: nat, w: nat)
    requires i < n && j < w
    ensures RowStart(i, w) + j < RowStart(n, w)
  {
    if i + 1 < n {
      RowStartBound(i, j, n - 1, w);
    }
  }

  /** The loops visit `len(B)` pairs per A entry. */
  lemma {:induction false} PairsLength(da: Data, db: Data)
    ensures |Pairs(da, db)| == RowStart(|da|, |db|)
    decreases |da|
  {
    if |da| > 0 {
      assert Pairs(da, db) == Row(da[0], db) + Pairs(da[1..], db);
      PairsLength(da[1..], db);
    }
  }

  /** The pair of the `i`-th A entry and the `j`-th B entry sits at position
      `j` of row `i`. */
  lemma {:induction false} PairsAt(da: Data, db: Data, i: nat, j: nat)
    requires i < |da| && j < |db|
    ensures RowStart(i, |db|) + j < |Pairs(da, db)|
    ensures Pairs(da, db)[RowStart(i, |db|) + j] == (da[i], db[j])
    decreases i
  {
    var w := |db|;
    var ps := Pairs(da, db);
    var row := Row(da[0], db);
    var rest := Pairs(da[1..], db);
    assert ps == row + rest;
    PairsLength(da, db);
    RowStartBound(i, j, |da|, w);
    if i == 0 {
      assert ps[j] == row[j];
    } else {
      PairsAt(da[1..], db, i - 1, j);
      var t := RowStart(i - 1, w) + j;
      assert RowStart(i, w) + j == w + t;
      assert ps[w + t] == rest[t];
      assert da[1..][i - 1] == da[i];
    }
  }

  /** The loops visit `len(A) * len(B)` pairs. */
  lemma {:induction false} PairsCount(da: Data, db: Data)
    ensures |Pairs(da, db)| == |da| * |db|
  {
    PairsLength(da, db);
    RowStartIsProduct(|da|, |db|);
  }

  /** The nested loops visit the pairs in row-major order: the pair of the
      `i`-th A entry and the `j`-th B entry comes at position `i * len(B) + j`. */
  lemma {:induction false} PairsOrder(da: Data, db: Data, i: nat, j: nat)
    requires i < |da| && j < |db|
    ensures i * |db| + j < |Pairs(da, db)| && Pairs(da, db)[i * |db| + j] == (da[i], db[j])
  {
    PairsAt(da, db, i, j);
    RowStartIsProduct(i, |db|);
  }

  /** What distinguishes one kernel from another: the index test on a pair of
      keys, the output key assembled from a matching pair, whether products
      are added or overwritten, and the declared dimension of the result. */
  datatype Rule = Rule(test: (Key, Key) -> bool, key: (Key, Key) -> Key, agg: Aggregation, dimension: nat)

  /** Every key the rule assembles has the declared number of components. */
  ghost predicate KeysSized(r: Rule) {
    forall a, b :: r.test(a, b) ==> |r.key(a, b)| == r.dimension
  }

  /** Two matching pairs never assemble the same key. */
  ghost predicate KeyDeterminesPair(r: Rule) {
    forall a, b, a', b' | r.test(a, b) && r.test(a', b') && r.key(a, b) == r.key(a', b') ::
      a == a' && b == b'
  }

  /** The rule of kernel (m, p). Keys of the wrong length never reach it (the
      unpacking would have raised first), so its test rejects them. */
  function RuleOf(m: Method, p: RankPair): (r: Rule)
    ensures KeysSized(r)
    ensures r.agg == AggregationOf(m)
    ensures r.dimension == OutDimension(m, p) == RankA(p) + RankB(p) - RankDrop(m)
  {
    Rule((a: Key, b: Key) => |a| == RankA(p) && |b| == RankB(p) && Matches(m, p, a, b),
         (a: Key, b: Key) => if |a| == RankA(p) && |b| == RankB(p) then NewKey(m, p, a, b) else [],
         AggregationOf(m),
         OutDimension(m, p))
  }

  /** On keys of the kernel's ranks, its rule is its index test and its key. */
  lemma RuleOfAt(m: Method, p: RankPair, a: Key, b: Key)
    requires |a| == RankA(p) && |b| == RankB(p)
    ensures RuleOf(m, p).test(a, b) == Matches(m, p, a, b)
    ensures RuleOf(m, p).key(a, b) == NewKey(m, p, a, b)
  {
  }

  /** Methods 3 and 4 never let two matching pairs share an output key. */
  lemma AssigningRulesInjective(m: Method, p: RankPair)
    requires AggregationOf(m) == Assign
    ensures KeyDeterminesPair(RuleOf(m, p))
  {
    var r := RuleOf(m, p);
    forall a, b, a', b' | r.test(a, b) && r.test(a', b') && r.key(a, b) == r.key(a', b')
      ensures a == a' && b == b'
    {
      RuleOfAt(m, p, a, b);
      RuleOfAt(m, p, a', b');
      ScottKeyDeterminesPair(m, p, a, b, a', b');
    }
  }

  /** The pair passes the test and assembles the output key `k`. */
  predicate Produces(r: Rule, x: Pair, k: Key) {
    r.test(x.0.0, x.1.0) && r.key(x.0.0, x.1.0) == k
  }

  /** `valA * valB` for the pair. */
  function Weight(x: Pair): real {
    x.0.1 * x.1.1
  }

  /** What the pair adds to the output key `k` under summation. */
  function Product(r: Rule, k: Key, x: Pair): real {
    if Produces(r, x, k) then Weight(x) else 0.0
  }

  /** The total over `ps` of what each pair contributes to the key `k`. */
  function Contribution(r: Rule, k: Key, ps: seq<Pair>): real {
    if |ps| == 0 then 0.0 else Product(r, k, ps[0]) + Contribution(r, k, ps[1..])
  }

  /** The number of pairs in `ps` that pass the test. */
  function HitCount(r: Rule, ps: seq<Pair>): nat {
    if |ps| == 0 then 0 else (if r.test(ps[0].0.0, ps[0].1.0) then 1 else 0) + HitCount(r, ps[1..])
  }

  /** One run of the inner loop body: on a match, write the product under
      the new key, added to the value there (`result_data.get(new_key, 0) + ...`)
      or in place of it. Its effect on the keys is stated by `StepSpec`. */
  function Step(r: Rule, acc: Data, x: Pair): Data {
    if r.test(x.0.0, x.1.0) then
      var k := r.key(x.0.0, x.1.0);
      Put(acc, k, match r.agg case Sum => Get(acc, k) + Weight(x) case Assign => Weight(x))
    else acc
  }

  /** A step adds the matching pair's key and nothing else, never duplicates
      a key, and keeps every key at the rule's dimension. */
  lemma StepSpec(r: Rule, acc: Data, x: Pair)
    ensures KeySet(Step(r, acc, x)) == if r.test(x.0.0, x.1.0) then KeySet(acc) + {r.key(x.0.0, x.1.0)} else KeySet(acc)
    ensures DistinctKeys(acc) ==> DistinctKeys(Step(r, acc, x))
    ensures KeysSized(r) && KeysOfLength(acc, r.dimension) ==> KeysOfLength(Step(r, acc, x), r.dimension)
  {
    if r.test(x.0.0, x.1.0) {
      var k := r.key(x.0.0, x.1.0);
      var v := match r.agg case Sum => Get(acc, k) + Weight(x) case Assign => Weight(x);
      assert Step(r, acc, x) == Put(acc, k, v);
      PutSpec(acc, k, v);
      if DistinctKeys(acc) {
        PutKeepsDistinct(acc, k, v);
      }
      if KeysSized(r) && KeysOfLength(acc, r.dimension) {
        forall e | e in Put(acc, k, v) ensures |e.0| == r.dimension {
          assert e.0 in KeySet(Put(acc, k, v));
          if e.0 != k {
            var e' :| e' in acc && e'.0 == e.0;
          }
        }
      }
    }
  }

  /** Both loops, run over the pairs `ps` in order from the dictionary `acc`. */
  function Fold(r: Rule, acc: Data, ps: seq<Pair>): Data
    decreases |ps|
  {
    if |ps| == 0 then acc else Fold(r, Step(r, acc, ps[0]), ps[1..])
  }

  /** The loops never duplicate a key and keep every key at the rule's dimension. */
  lemma {:induction false} FoldSpec(r: Rule, acc: Data, ps: seq<Pair>)
    ensures DistinctKeys(acc) ==> DistinctKeys(Fold(r, acc, ps))
    ensures KeysSized(r) && KeysOfLength(acc, r.dimension) ==> KeysOfLength(Fold(r, acc, ps), r.dimension)
    decreases |ps|
  {
    if |ps| > 0 {
      StepSpec(r, acc, ps[0]);
      FoldSpec(r, Step(r, acc, ps[0]), ps[1..]);
    }
  }

  /** The loops of a rule run from an empty dictionary over A and B. */
  function Run(r: Rule, A: Tensor, B: Tensor): (t: Tensor)
    ensures Valid(t)
    ensures KeysSized(r) ==> WellFormed(t)
    ensures t.dimension == r.dimension
  {
    FoldSpec(r, [], Pairs(A.data, B.data));
    Tensor(r.dimension, Fold(r, [], Pairs(A.data, B.data)))
  }

  /** Unpacking `i1, i2, ... = key_a` and `j1, j2, ... = key_b` succeeds for
      every key the loops reach: all A keys have rank rA and, when the outer
      loop runs at all, all B keys have rank rB. */
  predicate Unpackable(p: RankPair, da: Data, db: Data) {
    KeysOfLength(da, RankA(p)) && (|da| > 0 ==> KeysOfLength(db, RankB(p)))
  }

  /** Kernel (m, p) of `MunermanTensorMultiplier`: a new tensor of the
      declared output dimension, rA + rB less the method's rank drop, whose
      keys are distinct and all have that many components. */
  function Kernel(m: Method, p: RankPair, A: Tensor, B: Tensor): (t: Tensor)
    requires Unpackable(p, A.data, B.data)
    ensures WellFormed(t)
    ensures t.dimension == RankA(p) + RankB(p) - RankDrop(m)
  {
    Run(RuleOf(m, p), A, B)
  }

  /** One summing step adds the pair's product to the value under `k`. */
  lemma StepSumValue(r: Rule, acc: Data, x: Pair, k: Key)
    requires r.agg == Sum
    ensures Get(Step(r, acc, x), k) == Get(acc, k) + Product(r, k, x)
  {
    if r.test(x.0.0, x.1.0) {
      GetAfterPut(acc, r.key(x.0.0, x.1.0), Get(acc, r.key(x.0.0, x.1.0)) + Weight(x), k);
    }
  }

  /** Under summation, the value the loops leave under `k` is what was there
      plus every pair's contribution to `k`. */
  lemma {:induction false} FoldSumValue(r: Rule, acc: Data, ps: seq<Pair>, k: Key)
    requires r.agg == Sum
    ensures Get(Fold(r, acc, ps), k) == Get(acc, k) + Contribution(r, k, ps)
    decreases |ps|
  {
    if |ps| > 0 {
      StepSumValue(r, acc, ps[0], k);
      FoldSumValue(r, Step(r, acc, ps[0]), ps[1..], k);
    }
  }

  /** The keys the loops leave are those there before plus the output key of
      every matching pair, whatever the aggregation. */
  lemma {:induction false} FoldKeys(r: Rule, acc: Data, ps: seq<Pair>)
    ensures forall k :: k in KeySet(Fold(r, acc, ps)) <==>
                         k in KeySet(acc) || exists x | x in ps :: Produces(r, x, k)
    decreases |ps|
  {
    if |ps| > 0 {
      var acc' := Step(r, acc, ps[0]);
      StepSpec(r, acc, ps[0]);
      FoldKeys(r, acc', ps[1..]);
      assert Fold(r, acc, ps) == Fold(r, acc', ps[1..]);
      PairsCons(ps);
      forall k ensures k in KeySet(Fold(r, acc, ps)) <==>
                       k in KeySet(acc) || exists x | x in ps :: Produces(r, x, k)
      {
        if k in KeySet(acc') && k !in KeySet(acc) {
          assert Produces(r, ps[0], k);
        }
      }
    }
  }

  /** A pair of a non-empty run is its head or a pair of its tail. */
  lemma PairsCons(ps: seq<Pair>)
    requires |ps| > 0
    ensures forall x :: x in ps <==> x == ps[0] || x in ps[1..]
  {
    assert ps == [ps[0]] + ps[1..];
  }

  /** No two matching pairs of `ps` assemble the same output key. */
  predicate CollisionFree(r: Rule, ps: seq<Pair>) {
    forall i, j | 0 <= i < j < |ps| && r.test(ps[i].0.0, ps[i].1.0) && r.test(ps[j].0.0, ps[j].1.0) ::
      r.key(ps[i].0.0, ps[i].1.0) != r.key(ps[j].0.0, ps[j].1.0)
  }

  lemma CollisionFreeTail(r: Rule, ps: seq<Pair>)
    requires |ps| > 0 && CollisionFree(r, ps)
    ensures CollisionFree(r, ps[1..])
  {
    var qs := ps[1..];
    forall i, j | 0 <= i < j < |qs| && r.test(qs[i].0.0, qs[i].1.0) && r.test(qs[j].0.0, qs[j].1.0)
      ensures r.key(qs[i].0.0, qs[i].1.0) != r.key(qs[j].0.0, qs[j].1.0)
    {
      assert qs[i] == ps[i + 1] && qs[j] == ps[j + 1];
    }
  }

  /** The head of a collision-free run produces no key that a later pair produces. */
  lemma CollisionFreeHead(r: Rule, ps: seq<Pair>)
    requires |ps| > 0 && CollisionFree(r, ps) && r.test(ps[0].0.0, ps[0].1.0)
    ensures forall y | y in ps[1..] :: !Produces(r, y, r.key(ps[0].0.0, ps[0].1.0))
  {
    forall y | y in ps[1..] ensures !Produces(r, y, r.key(ps[0].0.0, ps[0].1.0)) {
      var j :| 0 <= j < |ps[1..]| && ps[1..][j] == y;
      assert ps[j + 1] == y;
    }
  }

  /** When no two matching pairs share a key and none lands on a key already
      stored, overwriting gives the same dictionary as adding, and every
      matching pair adds one entry. */
  lemma {:induction false} AssignFoldIsSumFold(r: Rule, acc: Data, ps: seq<Pair>)
    requires CollisionFree(r, ps)
    requires forall x | x in ps && r.test(x.0.0, x.1.0) :: r.key(x.0.0, x.1.0) !in KeySet(acc)
    ensures Fold(r.(agg := Assign), acc, ps) == Fold(r.(agg := Sum), acc, ps)
    ensures |Fold(r.(agg := Assign), acc, ps)| == |acc| + HitCount(r, ps)
    decreases |ps|
  {
    if |ps| > 0 {
      var ra, rs := r.(agg := Assign), r.(agg := Sum);
      assert forall y | y in ps[1..] :: y in ps;
      if r.test(ps[0].0.0, ps[0].1.0) {
        assert ps[0] in ps;
        StepFresh(r, acc, ps[0]);
        forall y | y in ps[1..] && r.test(y.0.0, y.1.0)
          ensures r.key(y.0.0, y.1.0) !in KeySet(Step(ra, acc, ps[0]))
        {
          CollisionFreeHead(r, ps);
          assert !Produces(r, y, r.key(ps[0].0.0, ps[0].1.0));
        }
      }
      CollisionFreeTail(r, ps);
      AssignFoldIsSumFold(r, Step(ra, acc, ps[0]), ps[1..]);
    }
  }

  /** On a key not yet stored, adding and overwriting agree: the step appends
      one entry holding the product. */
  lemma StepFresh(r: Rule, acc: Data, x: Pair)
    requires r.test(x.0.0, x.1.0) && r.key(x.0.0, x.1.0) !in KeySet(acc)
    ensures Step(r.(agg := Assign), acc, x) == Step(r.(agg := Sum), acc, x)
    ensures Step(r.(agg := Assign), acc, x) == acc + [(r.key(x.0.0, x.1.0), Weight(x))]
    ensures KeySet(Step(r.(agg := Assign), acc, x)) == KeySet(acc) + {r.key(x.0.0, x.1.0)}
  {
    GetSpec(acc, r.key(x.0.0, x.1.0));
    PutSpec(acc, r.key(x.0.0, x.1.0), Weight(x));
  }

  /** Pairs that do not produce `k` contribute nothing to it. */
  lemma {:induction false} NoProducerNoContribution(r: Rule, k: Key, ps: seq<Pair>)
    requires forall x | x in ps :: !Produces(r, x, k)
    ensures Contribution(r, k, ps) == 0.0
    decreases |ps|
  {
    if |ps| > 0 {
      assert ps[0] in ps;
      assert forall y | y in ps[1..] :: y in ps;
      NoProducerNoContribution(r, k, ps[1..]);
    }
  }

  /** Without collisions, the only contribution to a matching pair's key is
      that pair's own product. */
  lemma {:induction false} CollisionFreeContribution(r: Rule, ps: seq<Pair>, i: nat)
    requires CollisionFree(r, ps)
    requires i < |ps| && r.test(ps[i].0.0, ps[i].1.0)
    ensures Contribution(r, r.key(ps[i].0.0, ps[i].1.0), ps) == Weight(ps[i])
    decreases |ps|
  {
    var k := r.key(ps[i].0.0, ps[i].1.0);
    if i == 0 {
      CollisionFreeHead(r, ps);
      NoProducerNoContribution(r, k, ps[1..]);
    } else {
      assert ps[1..][i - 1] == ps[i];
      CollisionFreeTail(r, ps);
      CollisionFreeContribution(r, ps[1..], i - 1);
      assert !Produces(r, ps[0], k);
    }
  }

  /** Joining two collision-free runs of pairs whose keys never meet keeps it collision-free. */
  lemma CollisionFreeConcat(r: Rule, xs: seq<Pair>, ys: seq<Pair>)
    requires CollisionFree(r, xs) && CollisionFree(r, ys)
    requires forall x, y | x in xs && y in ys && r.test(x.0.0, x.1.0) && r.test(y.0.0, y.1.0) ::
               r.key(x.0.0, x.1.0) != r.key(y.0.0, y.1.0)
    ensures CollisionFree(r, xs + ys)
  {
    var zs := xs + ys;
    forall i, j | 0 <= i < j < |zs| && r.test(zs[i].0.0, zs[i].1.0) && r.test(zs[j].0.0, zs[j].1.0)
      ensures r.key(zs[i].0.0, zs[i].1.0) != r.key(zs[j].0.0, zs[j].1.0)
    {
      if j < |xs| {
        assert zs[i] == xs[i] && zs[j] == xs[j];
      } else if i >= |xs| {
        assert zs[i] == ys[i - |xs|] && zs[j] == ys[j - |xs|];
      } else {
        assert zs[i] == xs[i] && zs[j] == ys[j - |xs|];
        assert xs[i] in xs && ys[j - |xs|] in ys;
      }
    }
  }

  /** When a key determines its pair, the pairs of two key-distinct
      dictionaries never collide. */
  lemma {:induction false} PairsCollisionFree(r: Rule, da: Data, db: Data)
    requires KeyDeterminesPair(r)
    requires DistinctKeys(da) && DistinctKeys(db)
    ensures CollisionFree(r, Pairs(da, db))
    decreases |da|
  {
    if |da| > 0 {
      var row := Row(da[0], db);
      var rest := Pairs(da[1..], db);
      assert da == [da[0]] + da[1..];
      DistinctKeysCons(da[0], da[1..]);
      PairsCollisionFree(r, da[1..], db);
      forall i, j | 0 <= i < j < |row| && r.test(row[i].0.0, row[i].1.0) && r.test(row[j].0.0, row[j].1.0)
        ensures r.key(row[i].0.0, row[i].1.0) != r.key(row[j].0.0, row[j].1.0)
      {
        assert db[i].0 != db[j].0;
      }
      PairsMembers(da[1..], db);
      forall x, y | x in row && y in rest && r.test(x.0.0, x.1.0) && r.test(y.0.0, y.1.0)
        ensures r.key(x.0.0, x.1.0) != r.key(y.0.0, y.1.0)
      {
        assert x.0 == da[0];
        assert y.0.0 in KeySet(da[1..]);
      }
      CollisionFreeConcat(r, row, rest);
    }
  }

  /** A rule's loops store a key exactly when some pair of an A entry and a B
      entry produces it; without a matching pair they store nothing. */
  lemma RunKeys(r: Rule, A: Tensor, B: Tensor)
    ensures forall k :: k in KeySet(Run(r, A, B).data) <==>
              exists ea, eb | ea in A.data && eb in B.data :: Produces(r, (ea, eb), k)
    ensures (forall ea, eb | ea in A.data && eb in B.data :: !r.test(ea.0, eb.0)) ==> Run(r, A, B).data == []
  {
    var ps := Pairs(A.data, B.data);
    var d := Fold(r, [], ps);
    FoldKeys(r, [], ps);
    PairsMembers(A.data, B.data);
    forall k ensures k in KeySet(d) <==> exists ea, eb | ea in A.data && eb in B.data :: Produces(r, (ea, eb), k) {
      if k in KeySet(d) {
        var x :| x in ps && Produces(r, x, k);
        assert x.0 in A.data && x.1 in B.data;
      }
      if exists ea, eb | ea in A.data && eb in B.data :: Produces(r, (ea, eb), k) {
        var ea, eb :| ea in A.data && eb in B.data && Produces(r, (ea, eb), k);
        assert (ea, eb) in ps;
      }
    }
    if forall ea, eb | ea in A.data && eb in B.data :: !r.test(ea.0, eb.0) {
      assert KeySet(d) == {};
      FoldSpec(r, [], ps);
      DistinctKeysCount(d);
    }
  }

  /** With a key-determines-pair rule and key-distinct inputs, overwriting
      equals adding, there is one entry per matching pair, and each matching
      pair's key holds that pair's product. */
  lemma RunAssign(r: Rule, A: Tensor, B: Tensor)
    requires r.agg == Assign && KeyDeterminesPair(r)
    requires Valid(A) && Valid(B)
    ensures Run(r, A, B) == Run(r.(agg := Sum), A, B)
    ensures |Run(r, A, B).data| == HitCount(r, Pairs(A.data, B.data))
    ensures forall ea, eb | ea in A.data && eb in B.data && r.test(ea.0, eb.0) ::
              Get(Run(r, A, B).data, r.key(ea.0, eb.0)) == Weight((ea, eb))
  {
    var ps := Pairs(A.data, B.data);
    PairsCollisionFree(r, A.data, B.data);
    PairsMembers(A.data, B.data);
    AssignFoldIsSumFold(r, [], ps);
    assert r.(agg := Assign) == r;
    forall ea, eb | ea in A.data && eb in B.data && r.test(ea.0, eb.0)
      ensures Get(Run(r, A, B).data, r.key(ea.0, eb.0)) == Weight((ea, eb))
    {
      assert (ea, eb) in ps;
      var i :| 0 <= i < |ps| && ps[i] == (ea, eb);
      FoldSumValue(r.(agg := Sum), [], ps, r.key(ea.0, eb.0));
      CollisionFreeContribution(r.(agg := Sum), ps, i);
      GetSpec([], r.key(ea.0, eb.0));
    }
  }

  /** Two single-entry tensors: one entry holding the product when the pair
      matches, nothing otherwise. */
  lemma RunSingle(r: Rule, ea: Entry, eb: Entry, dimA: int, dimB: int)
    ensures Run(r, Tensor(dimA, [ea]), Tensor(dimB, [eb])).data ==
              if r.test(ea.0, eb.0) then [(r.key(ea.0, eb.0), Weight((ea, eb)))] else []
  {
    var ps := Pairs([ea], [eb]);
    assert ps == [(ea, eb)] by {
      assert [ea][1..] == [];
      assert Pairs([ea][1..], [eb]) == [];
      assert Row(ea, [eb]) == [(ea, eb)];
    }
    assert Fold(r, [], ps) == Fold(r, Step(r, [], (ea, eb)), []);
    assert Get([], r.key(ea.0, eb.0)) == 0.0;
  }

  /** Methods 1, 2 and 5: the value of the product at any key is the sum of
      `valA * valB` over exactly the (A entry, B entry) pairs, in loop order,
      that pass the kernel's test and assemble that key; zero when there are none. */
  lemma SummingKernelValues(m: Method, p: RankPair, A: Tensor, B: Tensor)
    requires AggregationOf(m) == Sum
    requires Unpackable(p, A.data, B.data)
    ensures forall k :: GetValue(Kernel(m, p, A, B), k) == Contribution(RuleOf(m, p), k, Pairs(A.data, B.data))
  {
    forall k ensures GetValue(Kernel(m, p, A, B), k) == Contribution(RuleOf(m, p), k, Pairs(A.data, B.data)) {
      FoldSumValue(RuleOf(m, p), [], Pairs(A.data, B.data), k);
      GetSpec([], k);
    }
  }

  /** On the entries of tensors that unpack, the kernel's rule is its index
      test and key. */
  lemma RuleOnEntries(m: Method, p: RankPair, A: Tensor, B: Tensor)
    requires Unpackable(p, A.data, B.data)
    ensures forall ea, eb | ea in A.data && eb in B.data ::
              |ea.0| == RankA(p) && |eb.0| == RankB(p) &&
              RuleOf(m, p).test(ea.0, eb.0) == Matches(m, p, ea.0, eb.0) &&
              RuleOf(m, p).key(ea.0, eb.0) == NewKey(m, p, ea.0, eb.0)
  {
    forall ea, eb | ea in A.data && eb in B.data
      ensures |ea.0| == RankA(p) && |eb.0| == RankB(p) &&
              RuleOf(m, p).test(ea.0, eb.0) == Matches(m, p, ea.0, eb.0) &&
              RuleOf(m, p).key(ea.0, eb.0) == NewKey(m, p, ea.0, eb.0)
    {
      RuleOfAt(m, p, ea.0, eb.0);
    }
  }

  /** Every kernel: a key is stored in the product exactly when some pair of
      an A entry and a B entry passes the test and assembles it. */
  lemma KernelKeys(m: Method, p: RankPair, A: Tensor, B: Tensor)
    requires Unpackable(p, A.data, B.data)
    ensures forall k :: k in KeySet(Kernel(m, p, A, B).data) <==>
              exists ea, eb | ea in A.data && eb in B.data ::
                Matches(m, p, ea.0, eb.0) && NewKey(m, p, ea.0, eb.0) == k
  {
    var r := RuleOf(m, p);
    RunKeys(r, A, B);
    forall k ensures k in KeySet(Run(r, A, B).data) <==>
                     exists ea, eb | ea in A.data && eb in B.data ::
                       Matches(m, p, ea.0, eb.0) && NewKey(m, p, ea.0, eb.0) == k
    {
      if k in KeySet(Run(r, A, B).data) {
        var ea, eb :| ea in A.data && eb in B.data && Produces(r, (ea, eb), k);
        RuleOfAt(m, p, ea.0, eb.0);
      } else {
        forall ea, eb | ea in A.data && eb in B.data
          ensures !(Matches(m, p, ea.0, eb.0) && NewKey(m, p, ea.0, eb.0) == k)
        {
          RuleOfAt(m, p, ea.0, eb.0);
          assert !Produces(r, (ea, eb), k);
        }
      }
    }
  }

  /** Every kernel: without a matching pair the product is empty. */
  lemma KernelNoMatch(m: Method, p: RankPair, A: Tensor, B: Tensor)
    requires Unpackable(p, A.data, B.data)
    requires forall ea, eb | ea in A.data && eb in B.data :: !Matches(m, p, ea.0, eb.0)
    ensures Kernel(m, p, A, B).data == []
  {
    RunKeys(RuleOf(m, p), A, B);
    RuleOnEntries(m, p, A, B);
  }

  /** Methods 3 and 4: for key-distinct inputs no two matching pairs share an
      output key, so the product has exactly one entry per matching pair,
      holding that pair's `valA * valB`, and overwriting gives the same
      tensor that adding would. */
  lemma AssigningKernels(m: Method, p: RankPair, A: Tensor, B: Tensor)
    requires AggregationOf(m) == Assign
    requires Valid(A) && Valid(B)
    requires Unpackable(p, A.data, B.data)
    ensures Kernel(m, p, A, B) == Run(RuleOf(m, p).(agg := Sum), A, B)
    ensures |Kernel(m, p, A, B).data| == HitCount(RuleOf(m, p), Pairs(A.data, B.data))
    ensures forall ea, eb | ea in A.data && eb in B.data && Matches(m, p, ea.0, eb.0) ::
              GetValue(Kernel(m, p, A, B), NewKey(m, p, ea.0, eb.0)) == ea.1 * eb.1
  {
    var r := RuleOf(m, p);
    AssigningRulesInjective(m, p);
    RunAssign(r, A, B);
    assert Kernel(m, p, A, B) == Run(r, A, B);
    forall ea, eb | ea in A.data && eb in B.data && Matches(m, p, ea.0, eb.0)
      ensures GetValue(Kernel(m, p, A, B), NewKey(m, p, ea.0, eb.0)) == ea.1 * eb.1
    {
      AssigningKernelAt(m, p, A, B, ea, eb);
    }
  }

  /** Methods 3 and 4: the key a matching pair assembles holds that pair's
      `valA * valB` in the product. */
  lemma AssigningKernelAt(m: Method, p: RankPair, A: Tensor, B: Tensor, ea: Entry, eb: Entry)
    requires AggregationOf(m) == Assign
    requires Valid(A) && Valid(B)
    requires Unpackable(p, A.data, B.data)
    requires ea in A.data && eb in B.data
    requires Matches(m, p, ea.0, eb.0)
    ensures GetValue(Kernel(m, p, A, B), NewKey(m, p, ea.0, eb.0)) == ea.1 * eb.1
  {
    assert Weight((ea, eb)) == ea.1 * eb.1;
    var r := RuleOf(m, p);
    AssigningRulesInjective(m, p);
    RunAssign(r, A, B);
    RuleOfAt(m, p, ea.0, eb.0);
    assert Kernel(m, p, A, B) == Run(r, A, B);
    assert Get(Run(r, A, B).data, r.key(ea.0, eb.0)) == Weight((ea, eb));
  }

  /** The smallest case: two single-entry tensors give one entry holding the
      product when the pair matches, and nothing otherwise. */
  lemma SingleEntries(m: Method, p: RankPair, a: Key, va: real, b: Key, vb: real)
    requires |a| == RankA(p) && |b| == RankB(p)
    ensures Kernel(m, p, Tensor(RankA(p), [(a, va)]), Tensor(RankB(p), [(b, vb)])).data ==
              if Matches(m, p, a, b) then [(NewKey(m, p, a, b), va * vb)] else []
  {
    var A, B := Tensor(RankA(p), [(a, va)]), Tensor(RankB(p), [(b, vb)]);
    RunSingle(RuleOf(m, p), (a, va), (b, vb), RankA(p), RankB(p));
    RuleOfAt(m, p, a, b);
    assert Kernel(m, p, A, B) == Run(RuleOf(m, p), A, B);
    assert Weight(((a, va), (b, vb))) == va * vb;
  }
}
