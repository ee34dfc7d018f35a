/** `TensorOperations.multiply_tensors`: classifies the rank pair from the
    stored dimensions, picks the kernel by method number, and runs it. The
    `dimension_type` argument it receives plays no part. */
module Dispatcher {
  import opened Outcomes
  import opened SparseTensor
  import opened Kernels
  import opened Contraction

  /** The `ValueError`s of the dispatcher, and the one a kernel raises when a
      key cannot be unpacked into the kernel's number of indices. */
  datatype MultiplyError =
    | UnsupportedDimensions(dimA: int, dimB: int)
    | UnknownMethod(number: int)
    | KeyArity

  /** The `dim_type` chain: the rank pair the two stored dimensions name, if any. */
  function ClassifyRanks(dimA: int, dimB: int): (o: Option<RankPair>)
    ensures forall p :: o == Some(p) <==> RankA(p) == dimA && RankB(p) == dimB
  {
    if dimA == 3 && dimB == 3 then Some(Square)
    else if dimA == 4 && dimB == 4 then Some(FourD)
    else if dimA == 3 && dimB == 4 then Some(ThreeFour)
    else if dimA == 4 && dimB == 3 then Some(FourThree)
    else None
  }

  /** The `method == 1 ... method == 5` chain: the product a method number selects, if any. */
  function MethodNumbered(n: int): (o: Option<Method>)
    ensures forall m :: o == Some(m) <==> Number(m) == n
  {
    if n == 1 then Some(Cayley02)
    else if n == 2 then Some(Cayley01)
    else if n == 3 then Some(Scott20)
    else if n == 4 then Some(Scott10)
    else if n == 5 then Some(Combined11)
    else None
  }

  /** The two stored dimensions form a supported rank pair. */
  predicate SupportedRanks(A: Tensor, B: Tensor) {
    exists p :: RankA(p) == A.dimension && RankB(p) == B.dimension
  }

  /** The method number is one of 1 to 5. */
  predicate KnownMethod(number: int) {
    exists m :: Number(m) == number
  }

  /** `multiply_tensors(tensor_a, tensor_b, method, dimension_type)`. An
      unsupported rank pair is reported before the method is looked at, an
      unknown method before any key is unpacked; otherwise the result is the
      kernel of that method and rank pair, and it has the method's output rank. */
  function MultiplyTensors(A: Tensor, B: Tensor, number: int, dimensionType: string): (r: Result<Tensor, MultiplyError>)
    ensures r == Err(UnsupportedDimensions(A.dimension, B.dimension)) <==> !SupportedRanks(A, B)
    ensures r == Err(UnknownMethod(number)) <==> SupportedRanks(A, B) && !KnownMethod(number)
    ensures r == Err(KeyArity) <==>
              exists m, p | Number(m) == number && RankA(p) == A.dimension && RankB(p) == B.dimension ::
                !Unpackable(p, A.data, B.data)
    ensures forall m, p | Number(m) == number && RankA(p) == A.dimension && RankB(p) == B.dimension ::
              Unpackable(p, A.data, B.data) ==> r == Ok(Kernel(m, p, A, B))
    ensures r.Ok? ==>
              && WellFormed(r.value)
              && KnownMethod(number)
              && exists m | Number(m) == number :: r.value.dimension == A.dimension + B.dimension - RankDrop(m)
  {
    match ClassifyRanks(A.dimension, B.dimension)
    case None => Err(UnsupportedDimensions(A.dimension, B.dimension))
    case Some(p) =>
      match MethodNumbered(number)
      case None => Err(UnknownMethod(number))
      case Some(m) =>
        if Unpackable(p, A.data, B.data) then Ok(Kernel(m, p, A, B)) else Err(KeyArity)
  }

  /** The `dimension_type` argument never changes the outcome. */
  lemma DimensionTypeIgnored(A: Tensor, B: Tensor, number: int, t: string, t': string)
    ensures MultiplyTensors(A, B, number, t) == MultiplyTensors(A, B, number, t')
  {
  }

  /** The tensors of the worked example: A = {(0,0,0): 1, (0,0,1): 2} and
      B = {(0,0,0): 3, (1,0,0): 4}. */
  function ExampleA(): Tensor {
    Tensor(3, [([0, 0, 0], 1.0), ([0, 0, 1], 2.0)])
  }

  function ExampleB(): Tensor {
    Tensor(3, [([0, 0, 0], 3.0), ([1, 0, 0], 4.0)])
  }

  /** Method 1 on the example: only the pair ((0,0,0), (0,0,0)) passes the
      (0,2)-contraction test, giving {(0,0): 3}. */
  lemma CayleyExample()
    ensures MultiplyTensors(ExampleA(), ExampleB(), 1, "square") == Ok(Tensor(2, [([0, 0], 3.0)]))
  {
    ExampleProduct(Cayley02);
  }

  /** Method 3 on the example: the same single pair, giving {(0,0,0,0): 3}. */
  lemma ScottExample()
    ensures MultiplyTensors(ExampleA(), ExampleB(), 3, "square") == Ok(Tensor(4, [([0, 0, 0, 0], 3.0)]))
  {
    ExampleProduct(Scott20);
  }

  /** Methods 1 and 3 on the example: the square kernel's single entry. */
  lemma ExampleProduct(m: Method)
    requires m == Cayley02 || m == Scott20
    ensures MultiplyTensors(ExampleA(), ExampleB(), Number(m), "square") ==
              Ok(Tensor(OutDimension(m, Square), [(NewKey(m, Square, [0, 0, 0], [0, 0, 0]), 3.0)]))
  {
    var A, B := ExampleA(), ExampleB();
    assert Unpackable(Square, A.data, B.data);
    assert MultiplyTensors(A, B, Number(m), "square") == Ok(Kernel(m, Square, A, B));
    ExampleSteps(m);
  }

  /** The four pairs the loops visit on the example, in order. */
  lemma ExamplePairs()
    ensures Pairs(ExampleA().data, ExampleB().data) ==
              [(ExampleA().data[0], ExampleB().data[0]), (ExampleA().data[0], ExampleB().data[1]),
               (ExampleA().data[1], ExampleB().data[0]), (ExampleA().data[1], ExampleB().data[1])]
  {
    var da, db := ExampleA().data, ExampleB().data;
    assert da[1..][1..] == [];
    assert Pairs(da[1..][1..], db) == [];
    assert Row(da[0], db) == [(da[0], db[0]), (da[0], db[1])];
    assert Row(da[1], db) == [(da[1], db[0]), (da[1], db[1])];
  }

  /** The run of method 1 or 3 over the four pairs, step by step. */
  lemma ExampleSteps(m: Method)
    requires m == Cayley02 || m == Scott20
    ensures Run(RuleOf(m, Square), ExampleA(), ExampleB()).data == [(NewKey(m, Square, [0, 0, 0], [0, 0, 0]), 3.0)]
  {
    var da, db := ExampleA().data, ExampleB().data;
    var r := RuleOf(m, Square);
    ExamplePairs();
    var ps := Pairs(da, db);
    assert Weight(ps[0]) == 3.0;
    RuleOfAt(m, Square, [0, 0, 0], [0, 0, 0]);
    RuleOfAt(m, Square, [0, 0, 0], [1, 0, 0]);
    RuleOfAt(m, Square, [0, 0, 1], [0, 0, 0]);
    RuleOfAt(m, Square, [0, 0, 1], [1, 0, 0]);
    assert r.test(da[0].0, db[0].0);
    assert !r.test(da[0].0, db[1].0) && !r.test(da[1].0, db[0].0) && !r.test(da[1].0, db[1].0);
    var s1 := Step(r, [], ps[0]);
    assert s1 == [(NewKey(m, Square, [0, 0, 0], [0, 0, 0]), Weight(ps[0]))];
    assert Fold(r, [], ps) == Fold(r, s1, ps[1..]);
    assert Fold(r, s1, ps[1..]) == Fold(r, s1, ps[2..]);
    assert Fold(r, s1, ps[2..]) == Fold(r, s1, ps[3..]);
    assert Fold(r, s1, ps[3..]) == Fold(r, s1, []);
  }

  /** A rank-3 tensor against a rank-5 one is refused whatever the method. */
  lemma UnsupportedExample(number: int)
    ensures MultiplyTensors(ExampleA(), Tensor(5, []), number, "mixed") == Err(UnsupportedDimensions(3, 5))
  {
  }
}
