/** The sparse tensor of `multiplication_matrix.py`: a dictionary from integer
    coordinate tuples to scalars, kept in insertion order, plus a stored
    `dimension` that the class never checks against the keys. */
module SparseTensor {
  /** A coordinate tuple. */
  type Key = seq<int>

  /** One stored (coordinate, value) pair. */
  type Entry = (Key, real)

  /** The dictionary behind a tensor, in insertion order. */
  type Data = seq<Entry>

  datatype Tensor = Tensor(dimension: int, data: Data)

  /** A dictionary never holds the same key twice. */
  predicate DistinctKeys(d: Data) {
    forall i, j | 0 <= i < j < |d| :: d[i].0 != d[j].0
  }

  /** The representation invariant every tensor value keeps. */
  predicate Valid(t: Tensor) {
    DistinctKeys(t.data)
  }

  /** Every key of `d` has exactly `n` components. */
  predicate KeysOfLength(d: Data, n: int) {
    forall e | e in d :: |e.0| == n
  }

  /** A tensor whose keys all have `dimension` components, as every tensor
      the program builds does. */
  predicate WellFormed(t: Tensor) {
    Valid(t) && KeysOfLength(t.data, t.dimension)
  }

  function KeySet(d: Data): set<Key> {
    set e | e in d :: e.0
  }

  lemma KeySetCons(d: Data)
    requires |d| > 0
    ensures KeySet(d) == {d[0].0} + KeySet(d[1..])
  {
    assert d == [d[0]] + d[1..];
  }

  /** A duplicate-free dictionary has exactly as many entries as keys. */
  lemma {:induction false} DistinctKeysCount(d: Data)
    requires DistinctKeys(d)
    ensures |KeySet(d)| == |d|
  {
    if |d| > 0 {
      KeySetCons(d);
      assert d[0].0 !in KeySet(d[1..]) by {
        forall e | e in d[1..] ensures e.0 != d[0].0 {
          var j :| 0 <= j < |d[1..]| && d[1..][j] == e;
          assert d[j + 1] == e;
        }
      }
      DistinctKeysCount(d[1..]);
    }
  }

  /** Joining two duplicate-free dictionaries with disjoint keys keeps the
      keys distinct. */
  lemma DistinctConcat(x: Data, y: Data)
    requires DistinctKeys(x) && DistinctKeys(y)
    requires KeySet(x) !! KeySet(y)
    ensures DistinctKeys(x + y)
  {
    forall i, j | 0 <= i < j < |x + y| ensures (x + y)[i].0 != (x + y)[j].0 {
      if j < |x| {
      } else if i >= |x| {
        assert (x + y)[i] == y[i - |x|] && (x + y)[j] == y[j - |x|];
      } else {
        assert (x + y)[i] == x[i] && (x + y)[j] == y[j - |x|];
        assert x[i].0 in KeySet(x) && y[j - |x|].0 in KeySet(y);
      }
    }
  }

  /** `dict.get(k, 0)`: the value stored under `k` (the first entry holding
      it), or zero when the key is absent. Its meaning is stated by `GetSpec`. */
  function Get(d: Data, k: Key): real {
    if |d| == 0 then 0.0
    else if d[0].0 == k then d[0].1
    else Get(d[1..], k)
  }

  /** A lookup reads zero for an absent key and the stored value for a present
      one; in a key-distinct dictionary, the value of every entry holding `k`. */
  lemma {:induction false} GetSpec(d: Data, k: Key)
    ensures k !in KeySet(d) ==> Get(d, k) == 0.0
    ensures k in KeySet(d) ==> (k, Get(d, k)) in d
    ensures DistinctKeys(d) ==> forall i | 0 <= i < |d| && d[i].0 == k :: Get(d, k) == d[i].1
  {
    if |d| > 0 {
      KeySetCons(d);
      if d[0].0 != k {
        GetSpec(d[1..], k);
        var v := Get(d, k);
        assert v == Get(d[1..], k);
        assert k in KeySet(d) ==> (k, v) in d by {
          if k in KeySet(d) {
            assert (k, v) in d[1..];
          }
        }
        if DistinctKeys(d) {
          assert DistinctKeys(d[1..]) by {
            forall i, j | 0 <= i < j < |d[1..]| ensures d[1..][i].0 != d[1..][j].0 {
              assert d[1..][i] == d[i + 1] && d[1..][j] == d[j + 1];
            }
          }
          forall i | 0 <= i < |d| && d[i].0 == k ensures v == d[i].1 {
            assert i > 0 && d[i] == d[1..][i - 1];
          }
        }
      } else if DistinctKeys(d) {
        forall i | 0 <= i < |d| && d[i].0 == k ensures Get(d, k) == d[i].1 {
          assert i == 0;
        }
      }
    }
  }

  /** A key-distinct dictionary is a first entry whose key the distinct rest lacks. */
  lemma DistinctKeysCons(e: Entry, d: Data)
    ensures DistinctKeys([e] + d) <==> DistinctKeys(d) && e.0 !in KeySet(d)
  {
    var x := [e] + d;
    assert x[1..] == d;
    if DistinctKeys(x) {
      forall i, j | 0 <= i < j < |d| ensures d[i].0 != d[j].0 {
        assert d[i] == x[i + 1] && d[j] == x[j + 1];
      }
      forall f | f in d ensures f.0 != e.0 {
        var j :| 0 <= j < |d| && d[j] == f;
        assert x[j + 1] == f && x[0] == e;
      }
    }
    if DistinctKeys(d) && e.0 !in KeySet(d) {
      forall i, j | 0 <= i < j < |x| ensures x[i].0 != x[j].0 {
        assert x[j] == d[j - 1];
        if i == 0 {
          assert d[j - 1].0 in KeySet(d);
        } else {
          assert x[i] == d[i - 1];
        }
      }
    }
  }

  /** `d[k] = v` on a Python dictionary: an existing key keeps its place and
      takes the new value, a new key goes to the end. */
  function Put(d: Data, k: Key, v: real): Data {
    if |d| == 0 then [(k, v)]
    else if d[0].0 == k then [(k, v)] + d[1..]
    else [d[0]] + Put(d[1..], k, v)
  }

  /** Storing adds `k` to the keys; an existing key stays where it was, so
      no entry moves, and a new key is appended after all the others. */
  lemma {:induction false} PutSpec(d: Data, k: Key, v: real)
    ensures KeySet(Put(d, k, v)) == KeySet(d) + {k}
    ensures k in KeySet(d) ==> |Put(d, k, v)| == |d| && forall i | 0 <= i < |d| :: Put(d, k, v)[i].0 == d[i].0
    ensures k !in KeySet(d) ==> Put(d, k, v) == d + [(k, v)]
  {
    var r := Put(d, k, v);
    if |d| == 0 {
      assert r == [(k, v)];
      KeySetCons(r);
    } else {
      KeySetCons(d);
      KeySetCons(r);
      if d[0].0 == k {
        assert r[1..] == d[1..];
      } else {
        PutSpec(d[1..], k, v);
        assert r[1..] == Put(d[1..], k, v);
        if k in KeySet(d) {
          forall i | 0 <= i < |d| ensures r[i].0 == d[i].0 {
            if i > 0 {
              assert r[i] == Put(d[1..], k, v)[i - 1];
            }
          }
        }
      }
    }
  }

  lemma GetCons(e: Entry, d: Data, k: Key)
    ensures Get([e] + d, k) == if e.0 == k then e.1 else Get(d, k)
  {
    assert ([e] + d)[1..] == d;
  }

  /** After `d[k] = v`, looking up `k` gives `v` and every other key reads as before. */
  lemma {:induction false} GetAfterPut(d: Data, k: Key, v: real, k': Key)
    ensures Get(Put(d, k, v), k') == if k' == k then v else Get(d, k')
  {
    if |d| > 0 {
      assert d == [d[0]] + d[1..];
      GetCons(d[0], d[1..], k');
      if d[0].0 == k {
        GetCons((k, v), d[1..], k');
      } else {
        GetAfterPut(d[1..], k, v, k');
        GetCons(d[0], Put(d[1..], k, v), k');
      }
    }
  }

  /** Storing a value never introduces a duplicate key. */
  lemma {:induction false} PutKeepsDistinct(d: Data, k: Key, v: real)
    requires DistinctKeys(d)
    ensures DistinctKeys(Put(d, k, v))
  {
    if |d| > 0 {
      assert d == [d[0]] + d[1..];
      DistinctKeysCons(d[0], d[1..]);
      var r := Put(d, k, v);
      if d[0].0 == k {
        assert r == [(k, v)] + d[1..];
        DistinctKeysCons((k, v), d[1..]);
      } else {
        PutKeepsDistinct(d[1..], k, v);
        PutSpec(d[1..], k, v);
        assert r == [d[0]] + Put(d[1..], k, v);
        DistinctKeysCons(d[0], Put(d[1..], k, v));
      }
    }
  }

  /** Writing a key twice keeps only the second value. */
  lemma {:induction false} PutTwice(d: Data, k: Key, v1: real, v2: real)
    ensures Put(Put(d, k, v1), k, v2) == Put(d, k, v2)
  {
    if |d| > 0 && d[0].0 != k {
      PutTwice(d[1..], k, v1, v2);
      assert Put(d, k, v1)[1..] == Put(d[1..], k, v1);
    }
  }

  /** A freshly constructed tensor with no entries. */
  function Empty(dimension: int): (t: Tensor)
    ensures WellFormed(t)
    ensures t.dimension == dimension && KeySet(t.data) == {}
  {
    Tensor(dimension, [])
  }

  /** `Tensor.add_value`: stores `value` under `indices`, replacing any earlier value. */
  function AddValue(t: Tensor, indices: Key, value: real): (r: Tensor)
    ensures r.dimension == t.dimension
    ensures GetValue(r, indices) == value
    ensures forall k | k != indices :: GetValue(r, k) == GetValue(t, k)
    ensures KeySet(r.data) == KeySet(t.data) + {indices}
    ensures Valid(t) ==> Valid(r)
  {
    var r := Tensor(t.dimension, Put(t.data, indices, value));
    PutSpec(t.data, indices, value);
    assert forall k :: GetValue(r, k) == if k == indices then value else GetValue(t, k) by {
      forall k ensures GetValue(r, k) == if k == indices then value else GetValue(t, k) {
        GetAfterPut(t.data, indices, value, k);
      }
    }
    assert Valid(t) ==> Valid(r) by {
      if Valid(t) {
        PutKeepsDistinct(t.data, indices, value);
      }
    }
    r
  }

  /** `Tensor.get_value`: the stored value, or zero when nothing is stored. */
  function GetValue(t: Tensor, indices: Key): (v: real)
    ensures indices !in KeySet(t.data) ==> v == 0.0
    ensures indices in KeySet(t.data) ==> (indices, v) in t.data
  {
    GetSpec(t.data, indices);
    Get(t.data, indices)
  }

  /** `Tensor.get_all_indices`: the stored keys in insertion order. */
  function AllIndices(t: Tensor): (ks: seq<Key>)
    ensures |ks| == |t.data|
    ensures forall i | 0 <= i < |ks| :: ks[i] == t.data[i].0
    ensures forall k :: k in ks <==> k in KeySet(t.data)
    ensures Valid(t) ==> forall i, j | 0 <= i < j < |ks| :: ks[i] != ks[j]
  {
    var ks := seq(|t.data|, i requires 0 <= i < |t.data| => t.data[i].0);
    assert forall k | k in KeySet(t.data) :: k in ks by {
      forall k | k in KeySet(t.data) ensures k in ks {
        var e :| e in t.data && e.0 == k;
        var i :| 0 <= i < |t.data| && t.data[i] == e;
        assert ks[i] == k;
      }
    }
    assert forall i | 0 <= i < |ks| :: ks[i] in KeySet(t.data) by {
      forall i | 0 <= i < |ks| ensures ks[i] in KeySet(t.data) {
        assert t.data[i] in t.data;
      }
    }
    ks
  }

  /** An entry of a non-empty dictionary is its first entry or one of the rest. */
  lemma EntriesCons(d: Data)
    requires |d| > 0
    ensures forall e :: e in d <==> e == d[0] || e in d[1..]
  {
    assert d == [d[0]] + d[1..];
  }

  function Max(a: int, b: int): int {
    if a >= b then a else b
  }

  /** The largest number of components of any key; zero for no keys. */
  function MaxKeyLength(d: Data): (n: nat)
    ensures forall e | e in d :: |e.0| <= n
    ensures |d| > 0 ==> exists e | e in d :: |e.0| == n
  {
    if |d| == 0 then 0
    else
      var rest := MaxKeyLength(d[1..]);
      EntriesCons(d);
      if |d[0].0| >= rest then |d[0].0| else rest
  }

  /** The inner loop of the shape computation over the components of one
      key, from component `i` on: a component past the current shape is
      appended as `idx + 1`, any other raises its axis to at least `idx + 1`. */
  function WidenShape(shape: seq<int>, key: Key, i: nat): (r: seq<int>)
    requires i <= |shape| && i <= |key|
    ensures |r| == Max(|shape|, |key|)
    ensures forall j | 0 <= j < |shape| :: shape[j] <= r[j]
    ensures forall j | i <= j < |key| :: key[j] < r[j]
    ensures forall j | 0 <= j < |r| ::
              (j < |shape| && r[j] == shape[j]) || (i <= j < |key| && r[j] == key[j] + 1)
    decreases |key| - i
  {
    if i == |key| then shape
    else if i >= |shape| then WidenShape(shape + [key[i] + 1], key, i + 1)
    else WidenShape(shape[i := Max(shape[i], key[i] + 1)], key, i + 1)
  }

  /** The outer loop of the shape computation, over the keys in insertion order. */
  function ShapeOver(shape: seq<int>, d: Data): (r: seq<int>)
    decreases |d|
    ensures |r| == Max(|shape|, MaxKeyLength(d))
    ensures forall j | 0 <= j < |shape| :: shape[j] <= r[j]
    ensures forall e, j | e in d && 0 <= j < |e.0| :: e.0[j] < r[j]
    ensures forall j | 0 <= j < |r| ::
              (j < |shape| && r[j] == shape[j]) || exists e | e in d :: j < |e.0| && r[j] == e.0[j] + 1
  {
    if |d| == 0 then shape
    else
      var w := WidenShape(shape, d[0].0, 0);
      var r := ShapeOver(w, d[1..]);
      EntriesCons(d);
      r
  }

  /** `Tensor.get_shape`: per axis, one more than the largest index any key
      has on that axis; the empty tuple for a tensor without entries. */
  function GetShape(t: Tensor): (shape: seq<int>)
    ensures t.data == [] ==> shape == []
    ensures |shape| == MaxKeyLength(t.data)
    ensures forall e, j | e in t.data && 0 <= j < |e.0| :: e.0[j] < shape[j]
    ensures forall j | 0 <= j < |shape| :: exists e | e in t.data :: j < |e.0| && shape[j] == e.0[j] + 1
  {
    if |t.data| == 0 then [] else ShapeOver([], t.data)
  }

  /** For a tensor with entries whose keys all have `n` components, the
      shape has `n` axes and boxes in every stored key. */
  lemma ShapeOfUniformKeys(t: Tensor, n: int)
    requires KeysOfLength(t.data, n) && |t.data| > 0
    ensures |GetShape(t)| == n
    ensures forall e, j | e in t.data && 0 <= j < n :: e.0[j] < GetShape(t)[j]
  {
  }
}
