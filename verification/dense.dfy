/** The dense form of a tensor, a nested Python list, and the conversions
    `Tensor.to_nested_list` and `Tensor.from_nested_list` with their helpers. */
module DenseTensor {
  import opened SparseTensor

  /** A value inside a nested list: a scalar or a list of further values. */
  datatype Nested = Scalar(value: real) | List(items: seq<Nested>)

  /** `c` is a path of list positions that ends at a scalar. */
  predicate IsLeafPath(n: Nested, c: Key)
    decreases |c|
  {
    if |c| == 0 then n.Scalar?
    else n.List? && 0 <= c[0] < |n.items| && IsLeafPath(n.items[c[0]], c[1..])
  }

  /** The scalar at the end of path `c`; 0.0 where the path ends anywhere else. */
  function At(n: Nested, c: Key): real
    decreases |c|
  {
    if |c| == 0 then (if n.Scalar? then n.value else 0.0)
    else if n.List? && 0 <= c[0] < |n.items| then At(n.items[c[0]], c[1..])
    else 0.0
  }

  /** Off the scalar paths every read gives zero. */
  lemma {:induction false} AtOffLeaf(n: Nested, c: Key)
    requires !IsLeafPath(n, c)
    ensures At(n, c) == 0.0
    decreases |c|
  {
    if |c| > 0 && n.List? && 0 <= c[0] < |n.items| {
      AtOffLeaf(n.items[c[0]], c[1..]);
    }
  }

  /** `n` is a rectangular nested list of the given shape with scalars at the bottom. */
  predicate Box(n: Nested, shape: seq<int>)
    decreases |shape|
  {
    if |shape| == 0 then n.Scalar?
    else n.List? && |n.items| == shape[0] &&
         forall i | 0 <= i < |n.items| :: Box(n.items[i], shape[1..])
  }

  /** `c` addresses a cell of the box `shape`. */
  predicate InBox(c: Key, shape: seq<int>) {
    |c| == |shape| && forall i | 0 <= i < |c| :: 0 <= c[i] < shape[i]
  }

  lemma InBoxCons(c: Key, shape: seq<int>)
    requires |c| > 0 && |shape| > 0
    ensures InBox(c, shape) <==> 0 <= c[0] < shape[0] && InBox(c[1..], shape[1..])
  {
    if 0 <= c[0] < shape[0] && InBox(c[1..], shape[1..]) {
      forall i | 0 <= i < |c| ensures 0 <= c[i] < shape[i] {
        if i > 0 {
          assert c[i] == c[1..][i - 1] && shape[i] == shape[1..][i - 1];
        }
      }
    }
  }

  /** In a rectangular nested list the paths to scalars are exactly the cells of the box. */
  lemma {:induction false} BoxLeafPaths(n: Nested, shape: seq<int>, c: Key)
    requires Box(n, shape)
    ensures IsLeafPath(n, c) <==> InBox(c, shape)
    decreases |shape|
  {
    if |shape| > 0 && |c| > 0 {
      InBoxCons(c, shape);
      if 0 <= c[0] < |n.items| {
        BoxLeafPaths(n.items[c[0]], shape[1..], c[1..]);
      }
    }
  }

  /** `Tensor._get_dimension`: the nesting depth along the chain of first items. */
  function Depth(n: Nested): nat {
    match n
    case Scalar(_) => 0
    case List(items) => if |items| == 0 then 0 else 1 + Depth(items[0])
  }

  /** A box without empty axes is exactly as deep as its shape is long. */
  lemma {:induction false} BoxDepth(n: Nested, shape: seq<int>)
    requires Box(n, shape)
    requires forall i | 0 <= i < |shape| :: shape[i] >= 1
    ensures Depth(n) == |shape|
    decreases |shape|
  {
    if |shape| > 0 {
      BoxDepth(n.items[0], shape[1..]);
    }
  }

  /** `Tensor._create_nested_list`: a nested list of the given shape holding 0.0 everywhere. */
  function CreateNested(shape: seq<int>): (r: Nested)
    requires |shape| >= 1
    requires forall i | 0 <= i < |shape| :: shape[i] >= 0
    ensures Box(r, shape)
    ensures forall c :: At(r, c) == 0.0
    decreases |shape|
  {
    if |shape| == 1 then List(seq(shape[0], _ => Scalar(0.0)))
    else
      var inner := CreateNested(shape[1..]);
      List(seq(shape[0], _ => inner))
  }

  /** The nested lists `_set_value_in_list` can write into at `c` without an index error. */
  predicate Settable(n: Nested, c: Key)
    decreases |c|
  {
    |c| >= 1 && n.List? && 0 <= c[0] < |n.items| &&
    (|c| > 1 ==> Settable(n.items[c[0]], c[1..]))
  }

  /** `Tensor._set_value_in_list`: replaces the item at path `c` by the scalar `v`. */
  function SetIn(n: Nested, c: Key, v: real): Nested
    requires Settable(n, c)
    decreases |c|
  {
    if |c| == 1 then List(n.items[c[0] := Scalar(v)])
    else List(n.items[c[0] := SetIn(n.items[c[0]], c[1..], v)])
  }

  /** Writing one cell of a box keeps the box and changes that cell only. */
  lemma {:induction false} SetInBox(n: Nested, shape: seq<int>, c: Key, v: real)
    requires |shape| >= 1
    requires Box(n, shape) && InBox(c, shape)
    ensures Settable(n, c)
    ensures Box(SetIn(n, c, v), shape)
    ensures forall c' :: At(SetIn(n, c, v), c') == if c' == c then v else At(n, c')
    decreases |shape|
  {
    InBoxCons(c, shape);
    var i := c[0];
    if |c| == 1 {
      var r := SetIn(n, c, v);
      forall c' ensures At(r, c') == if c' == c then v else At(n, c') {
        if |c'| > 0 && c'[0] == i {
          assert |c'| == 1 ==> c' == c;
        }
      }
    } else {
      assert |shape[1..]| >= 1;
      SetInBox(n.items[i], shape[1..], c[1..], v);
      var r := SetIn(n, c, v);
      forall c' ensures At(r, c') == if c' == c then v else At(n, c') {
        if |c'| > 0 && c'[0] == i {
          assert c' == c <==> c'[1..] == c[1..] by {
            assert c == [c[0]] + c[1..] && c' == [c'[0]] + c'[1..];
          }
        }
      }
    }
  }

  /** The filling loop of `to_nested_list`: writes every entry, in insertion order. */
  function FillAll(n: Nested, d: Data, ghost shape: seq<int>): (r: Nested)
    requires |shape| >= 1
    requires Box(n, shape)
    requires forall e | e in d :: InBox(e.0, shape)
    ensures Box(r, shape)
    ensures DistinctKeys(d) ==>
              forall c :: At(r, c) == if c in KeySet(d) then Get(d, c) else At(n, c)
    decreases |d|
  {
    if |d| == 0 then n
    else
      SetInBox(n, shape, d[0].0, d[0].1);
      var r := FillAll(SetIn(n, d[0].0, d[0].1), d[1..], shape);
      assert DistinctKeys(d) ==>
               forall c :: At(r, c) == if c in KeySet(d) then Get(d, c) else At(n, c) by {
        if DistinctKeys(d) {
          assert d == [d[0]] + d[1..];
          DistinctKeysCons(d[0], d[1..]);
          KeySetCons(d);
          forall c ensures At(r, c) == if c in KeySet(d) then Get(d, c) else At(n, c) {
            GetCons(d[0], d[1..], c);
          }
        }
      }
      r
  }

  /** The tensors `to_nested_list` lays out without raising and without
      wrapping a negative index: all keys have the same number of components,
      at least one, and none is negative. The stored `dimension` plays no part. */
  predicate DenseReady(t: Tensor) {
    |t.data| > 0 ==>
      forall e | e in t.data ::
        |e.0| == |t.data[0].0| >= 1 && forall i | 0 <= i < |e.0| :: e.0[i] >= 0
  }

  /** `Tensor.to_nested_list`: the empty list for an empty tensor, otherwise a
      box of the tensor's shape holding every stored value at its coordinate
      and 0.0 in every other cell. */
  function ToNestedList(t: Tensor): (r: Nested)
    requires DenseReady(t)
    ensures t.data == [] ==> r == List([])
    ensures t.data != [] ==> Box(r, GetShape(t))
    ensures Valid(t) ==> forall c :: At(r, c) == GetValue(t, c)
  {
    if |t.data| == 0 then List([])
    else
      var shape := GetShape(t);
      ShapeOfUniformKeys(t, |t.data[0].0|);
      assert forall i | 0 <= i < |shape| :: shape[i] >= 0 by {
        forall i | 0 <= i < |shape| ensures shape[i] >= 0 {
          assert t.data[0] in t.data;
        }
      }
      assert forall e | e in t.data :: InBox(e.0, shape);
      FillAll(CreateNested(shape), t.data, shape)
  }

  /** `Tensor._fill_data_from_list`: one entry per scalar, keyed by its path
      below `prefix`, in depth-first order. */
  function Flatten(n: Nested, prefix: Key): (d: Data)
    ensures forall e | e in d :: |prefix| <= |e.0| && e.0[..|prefix|] == prefix
    ensures DistinctKeys(d)
    decreases n, 1
  {
    match n
    case Scalar(v) => [(prefix, v)]
    case List(items) => FlattenItems(items, prefix, 0)
  }

  /** The `enumerate` loop of `_fill_data_from_list` over `items`, the first
      of which sits at position `start`. */
  function FlattenItems(items: seq<Nested>, prefix: Key, start: int): (d: Data)
    ensures forall e | e in d ::
              |prefix| < |e.0| && e.0[..|prefix|] == prefix && start <= e.0[|prefix|] < start + |items|
    ensures DistinctKeys(d)
    decreases items, 0
  {
    if |items| == 0 then []
    else
      var p := prefix + [start];
      var first := Flatten(items[0], p);
      var rest := FlattenItems(items[1..], prefix, start + 1);
      assert forall e | e in first :: |prefix| < |e.0| && e.0[..|prefix|] == prefix && e.0[|prefix|] == start by {
        forall e | e in first ensures |prefix| < |e.0| && e.0[..|prefix|] == prefix && e.0[|prefix|] == start {
          assert e.0[..|p|] == p;
          assert e.0[..|prefix|] == e.0[..|p|][..|prefix|];
          assert e.0[|prefix|] == e.0[..|p|][|prefix|];
        }
      }
      assert KeySet(first) !! KeySet(rest) by {
        forall k | k in KeySet(first) ensures k !in KeySet(rest) {
          var e :| e in first && e.0 == k;
          forall e' | e' in rest ensures e'.0 != k {
            assert e.0[|prefix|] == start < e'.0[|prefix|];
          }
        }
      }
      DistinctConcat(first, rest);
      first + rest
  }

  /** The entries `Flatten` produces are the scalars of `n`, each under its path. */
  lemma {:induction false} FlattenLeaves(n: Nested, prefix: Key)
    ensures forall e | e in Flatten(n, prefix) ::
              IsLeafPath(n, e.0[|prefix|..]) && e.1 == At(n, e.0[|prefix|..])
    ensures forall c | IsLeafPath(n, c) :: prefix + c in KeySet(Flatten(n, prefix))
    decreases n, 1
  {
    match n
    case Scalar(v) =>
      assert prefix + [] == prefix;
    case List(items) =>
      FlattenItemsLeaves(items, prefix, 0);
      var d := Flatten(n, prefix);
      forall e | e in d
        ensures IsLeafPath(n, e.0[|prefix|..]) && e.1 == At(n, e.0[|prefix|..])
      {
        var c := e.0[|prefix|..];
        assert c[0] == e.0[|prefix|] && c[1..] == e.0[|prefix| + 1..];
      }
      forall c | IsLeafPath(n, c) ensures prefix + c in KeySet(d) {
        assert IsLeafPath(items[c[0]], c[1..]);
        assert prefix + [0 + c[0]] + c[1..] in KeySet(FlattenItems(items, prefix, 0));
        assert prefix + [0 + c[0]] + c[1..] == prefix + c;
      }
  }

  /** Every entry of `FlattenItems` is the scalar at the end of its path
      below the item its first free component names. */
  lemma {:induction false} FlattenItemsLeaves(items: seq<Nested>, prefix: Key, start: int)
    ensures forall e | e in FlattenItems(items, prefix, start) ::
              IsLeafPath(items[e.0[|prefix|] - start], e.0[|prefix| + 1..]) &&
              e.1 == At(items[e.0[|prefix|] - start], e.0[|prefix| + 1..])
    ensures forall j, c | 0 <= j < |items| && IsLeafPath(items[j], c) ::
              prefix + [start + j] + c in KeySet(FlattenItems(items, prefix, start))
    decreases items, 1
  {
    if |items| > 0 {
      FlattenItemsSound(items, prefix, start);
      FlattenItemsComplete(items, prefix, start);
    }
  }

  lemma {:induction false} FlattenItemsSound(items: seq<Nested>, prefix: Key, start: int)
    requires |items| > 0
    ensures forall e | e in FlattenItems(items, prefix, start) ::
              IsLeafPath(items[e.0[|prefix|] - start], e.0[|prefix| + 1..]) &&
              e.1 == At(items[e.0[|prefix|] - start], e.0[|prefix| + 1..])
    decreases items, 0
  {
    var p := prefix + [start];
    var first := Flatten(items[0], p);
    var rest := FlattenItems(items[1..], prefix, start + 1);
    FlattenLeaves(items[0], p);
    FlattenItemsLeaves(items[1..], prefix, start + 1);
    assert FlattenItems(items, prefix, start) == first + rest;
    forall e: Entry | e in first + rest
      ensures IsLeafPath(items[e.0[|prefix|] - start], e.0[|prefix| + 1..]) &&
              e.1 == At(items[e.0[|prefix|] - start], e.0[|prefix| + 1..])
    {
      if e in first {
        assert e.0[..|p|] == p;
        assert e.0[|prefix|] == e.0[..|p|][|prefix|];
        assert e.0[|prefix| + 1..] == e.0[|p|..];
      } else {
        assert items[1..][e.0[|prefix|] - (start + 1)] == items[e.0[|prefix|] - start];
      }
    }
  }

  lemma {:induction false} FlattenItemsComplete(items: seq<Nested>, prefix: Key, start: int)
    requires |items| > 0
    ensures forall j, c | 0 <= j < |items| && IsLeafPath(items[j], c) ::
              prefix + [start + j] + c in KeySet(FlattenItems(items, prefix, start))
    decreases items, 0
  {
    var p := prefix + [start];
    var first := Flatten(items[0], p);
    var rest := FlattenItems(items[1..], prefix, start + 1);
    FlattenLeaves(items[0], p);
    FlattenItemsLeaves(items[1..], prefix, start + 1);
    assert FlattenItems(items, prefix, start) == first + rest;
    forall j, c | 0 <= j < |items| && IsLeafPath(items[j], c)
      ensures prefix + [start + j] + c in KeySet(first + rest)
    {
      if j == 0 {
        assert p + c in KeySet(first);
        assert prefix + [start + j] + c == p + c;
      } else {
        assert items[1..][j - 1] == items[j];
        assert prefix + [start + 1 + (j - 1)] + c in KeySet(rest);
      }
    }
  }

  /** `Tensor.from_nested_list`: the dimension is the depth along the first
      items, and there is one entry per scalar of the nested list, keyed by
      its path, so a lookup anywhere reads the scalar there or zero. Jagged
      nested lists are accepted as the program accepts them. */
  function FromNestedList(n: Nested): (t: Tensor)
    ensures Valid(t)
    ensures t.dimension == Depth(n)
    ensures forall c :: c in KeySet(t.data) <==> IsLeafPath(n, c)
    ensures forall c :: GetValue(t, c) == At(n, c)
  {
    var d := Flatten(n, []);
    FlattenLeaves(n, []);
    assert forall e | e in d :: e.0[0..] == e.0;
    assert forall c: Key :: [] + c == c;
    assert forall c :: GetValue(Tensor(Depth(n), d), c) == At(n, c) by {
      forall c ensures GetValue(Tensor(Depth(n), d), c) == At(n, c) {
        if !IsLeafPath(n, c) {
          AtOffLeaf(n, c);
        }
      }
    }
    Tensor(Depth(n), d)
  }

  /** Converting a non-empty tensor to nested lists and back reads the same
      value at every coordinate; the cells of the shape box that held nothing
      come back as explicit zero entries. The dimension becomes the key
      length, so a well-formed tensor keeps its dimension. */
  lemma DenseRoundTrip(t: Tensor)
    requires Valid(t) && DenseReady(t) && |t.data| > 0
    ensures FromNestedList(ToNestedList(t)).dimension == |t.data[0].0|
    ensures WellFormed(t) ==> FromNestedList(ToNestedList(t)).dimension == t.dimension
    ensures forall c :: GetValue(FromNestedList(ToNestedList(t)), c) == GetValue(t, c)
    ensures forall c :: c in KeySet(FromNestedList(ToNestedList(t)).data) <==> InBox(c, GetShape(t))
  {
    var n := ToNestedList(t);
    var shape := GetShape(t);
    ShapeOfDenseReady(t);
    BoxDepth(n, shape);
    forall c ensures IsLeafPath(n, c) <==> InBox(c, shape) {
      BoxLeafPaths(n, shape, c);
    }
    assert t.data[0] in t.data;
  }

  /** The shape of a non-empty tensor `to_nested_list` can lay out has one
      axis per key component, none of them empty. */
  lemma ShapeOfDenseReady(t: Tensor)
    requires DenseReady(t) && |t.data| > 0
    ensures |GetShape(t)| == |t.data[0].0|
    ensures forall i | 0 <= i < |GetShape(t)| :: GetShape(t)[i] >= 1
  {
    var shape := GetShape(t);
    ShapeOfUniformKeys(t, |t.data[0].0|);
    forall i | 0 <= i < |shape| ensures shape[i] >= 1 {
      assert t.data[0] in t.data;
    }
  }

  /** An empty tensor comes back from the dense round trip with dimension 0,
      whatever dimension it had. */
  lemma EmptyRoundTrip(t: Tensor)
    requires t.data == []
    ensures FromNestedList(ToNestedList(t)) == Tensor(0, [])
  {
  }
}
