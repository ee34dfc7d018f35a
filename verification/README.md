# Sparse tensor contraction (Munerman products) in Dafny

This project models the computational core of `multiplication_matrix.py`, which has three parts.

- **The sparse `Tensor` class.** It is a dictionary from integer coordinate tuples to scalars, plus a stored `dimension`. The model covers:
  - storing and reading values;
  - listing the keys;
  - deriving the shape;
  - converting to and from nested Python lists.
- **The twenty contraction kernels of `MunermanTensorMultiplier`.** There are five products:
  - method 1: Cayley (0,2);
  - method 2: Cayley (0,1);
  - method 3: Scott (2,0);
  - method 4: Scott (1,0);
  - method 5: combined (1,1).

  Each product comes in four rank pairings: 3×3, 4×4, 3×4 and 4×3.
- **The dispatcher `TensorOperations.multiply_tensors`.**

The modules follow the program's structure.

- `SparseTensor` (`sparse_tensor.dfy`) is the tensor as an immutable value.
  - A tensor is a `dimension` plus a sequence of (key, value) entries in dictionary insertion order.
  - `Put` is dictionary assignment: an existing key keeps its position, and a new key is appended.
  - `Get` is `dict.get(k, 0)`.
  - `GetShape` is the per-axis maximum index plus one, computed by the same widen-or-append loop as the source.
- `DenseTensor` (`dense.dfy`) covers nested lists and both conversions.
  - A nested list is a `Nested` value: a scalar, or a list of nested values.
  - `At` reads a cell along a path.
  - `Box` says a nested list is rectangular with a given shape.
- `Kernels` (`kernels.dfy`) is the twenty kernels, written case by case as the program spells them.
  - `Matches` is each kernel's index test, `NewKey` its output key, and `OutDimension` its declared result dimension.
  - There is also a five-row generic table: A's trailing indices against B's leading indices. Every literal kernel is an instance of it.
- `Contraction` (`contraction.dfy`) is the nested loop the kernels share. It is stated once, for any `Rule` (a test, a key constructor, add-or-overwrite, and a result dimension).
  - The loop is a left fold over the (A entry, B entry) pairs in loop order.
  - `Kernel(m, p, A, B)` runs the rule of method `m` at rank pair `p`.
- `Dispatcher` (`dispatcher.dfy`) classifies ranks, selects the method, and reports errors as a `Result`.
- `Outcomes` (`outcomes.dfy`) holds `Option` and `Result`.

Scalars are Dafny `real`s. Python exceptions become error values:
- an unsupported rank pair;
- an unknown method number;
- a key that cannot be unpacked into the kernel's number of indices.

## Model

| member | source | states |
|---|---|---|
| SparseTensor.Get | multiplication_matrix.py:18-19 | `dict.get(k, 0)` on the entry sequence. It has no contract of its own; `SparseTensor.GetSpec` specifies it. |
| SparseTensor.GetSpec | multiplication_matrix.py:18-19 | A lookup of an absent key reads 0. A lookup of a present key reads a value stored under that key. In a key-distinct dictionary that value is the entry's value. |
| SparseTensor.GetValue | multiplication_matrix.py:18-19 | `get_value` never fails: it gives 0 for an absent key and the stored value for a present one. |
| SparseTensor.Put | multiplication_matrix.py:15-16 | `dict[k] = v` on the entry sequence. It has no contract of its own; `SparseTensor.PutSpec`, `SparseTensor.GetAfterPut`, `SparseTensor.PutKeepsDistinct` and `SparseTensor.PutTwice` specify it. |
| SparseTensor.PutSpec | multiplication_matrix.py:15-16 | Assignment adds the key to the key set. An existing key keeps its position, so no key moves. A new key is appended after all others. |
| SparseTensor.GetAfterPut | multiplication_matrix.py:15-19 | After assignment, the assigned key reads the new value and every other key reads as before. |
| SparseTensor.PutKeepsDistinct | multiplication_matrix.py:15-16 | Assignment never creates a duplicate key. |
| SparseTensor.PutTwice | multiplication_matrix.py:15-16 | Assigning a key twice is the same as assigning only the second value: the earlier value is replaced. |
| SparseTensor.AddValue | multiplication_matrix.py:15-16 | `add_value` keeps the dimension, makes the key read the new value, leaves every other key's value unchanged, adds exactly that key, and keeps keys distinct. |
| SparseTensor.Empty | multiplication_matrix.py:8-13 | A tensor constructed without data has no keys and the given dimension, and is well-formed. |
| SparseTensor.AllIndices | multiplication_matrix.py:21-22 | `get_all_indices` lists the stored keys in insertion order, one per entry: position i holds the i-th entry's key. It holds exactly the stored keys, with no repeats in a valid tensor. |
| SparseTensor.DistinctKeysCount | multiplication_matrix.py:21-22 | A duplicate-free dictionary has as many entries as distinct keys. |
| SparseTensor.MaxKeyLength | multiplication_matrix.py:66-73 | The longest key length bounds every key and, when there are keys, is attained by one; it is the number of axes `get_shape` returns. |
| SparseTensor.WidenShape | multiplication_matrix.py:68-72 | One pass of the inner loop: the shape grows to the key's length, and no axis shrinks. Each visited axis ends strictly above the key's index on that axis, and holds either its old value or that index plus one. |
| SparseTensor.ShapeOver | multiplication_matrix.py:66-73 | The outer loop bounds every key componentwise. Each axis equals some key's index plus one, or keeps its starting value. |
| SparseTensor.GetShape | multiplication_matrix.py:61-74 | The shape of an empty tensor is `()`. Otherwise, every stored key is componentwise strictly below the shape, and each axis is one more than some key's index on that axis. |
| SparseTensor.ShapeOfUniformKeys | multiplication_matrix.py:61-74 | For a non-empty tensor whose keys all have n components, the shape has n axes and bounds every key. |
| DenseTensor.AtOffLeaf | multiplication_matrix.py:54-59 | A path that does not end at a scalar reads 0. |
| DenseTensor.BoxLeafPaths | multiplication_matrix.py:47-52 | In a rectangular nested list, the paths to scalars are exactly the cells of its shape. |
| DenseTensor.Depth | multiplication_matrix.py:84-89 | `_get_dimension`: 0 for a scalar or an empty list, otherwise one more than the first item's depth. It has no contract of its own; `DenseTensor.BoxDepth` specifies it. |
| DenseTensor.BoxDepth | multiplication_matrix.py:84-89 | `_get_dimension` of a rectangular list with no empty axis is the number of axes. |
| DenseTensor.CreateNested | multiplication_matrix.py:47-52 | `_create_nested_list` builds a rectangular list of the requested shape that holds 0.0 in every cell. |
| DenseTensor.SetIn | multiplication_matrix.py:54-59 | `_set_value_in_list` along a path. It has no contract of its own; `DenseTensor.SetInBox` specifies it on a rectangular list. |
| DenseTensor.SetInBox | multiplication_matrix.py:54-59 | `_set_value_in_list` at a cell of the box succeeds, keeps the box, and changes that one cell only. |
| DenseTensor.FillAll | multiplication_matrix.py:41-43 | The fill loop keeps the box. Each stored key's cell then holds its value, and every other cell keeps its old value. |
| DenseTensor.ToNestedList | multiplication_matrix.py:24-45 | For any tensor whose keys share one length of at least 1 and have no negative index: an empty tensor gives `[]`. Otherwise the result is a rectangular list of exactly `get_shape()`, and every cell holds `get_value` of its coordinates. The stored `dimension` plays no part. |
| DenseTensor.Flatten | multiplication_matrix.py:91-98 | `_fill_data_from_list` produces keys that all extend the current prefix and never repeat. |
| DenseTensor.FlattenItems | multiplication_matrix.py:94-96 | The `enumerate` loop keys each child's entries by prefix plus child position, so keys from different children never collide. |
| DenseTensor.FlattenLeaves | multiplication_matrix.py:91-98 | Each produced entry is a scalar of the list under its path, and every scalar path is produced. |
| DenseTensor.FlattenItemsLeaves | multiplication_matrix.py:94-96 | The same holds for the children of a list, starting at a given position. |
| DenseTensor.FromNestedList | multiplication_matrix.py:76-82 | `from_nested_list` has dimension `_get_dimension`. It stores exactly the scalar paths, and `get_value` reads every cell of the list, 0 off the scalars. |
| DenseTensor.DenseRoundTrip | multiplication_matrix.py:24-98 | A non-empty tensor with keys of one length and non-negative indices survives `from_nested_list(to_nested_list(t))`. `get_value` agrees at every coordinate, and the keys are the whole shape box: absent keys return as explicit 0.0 entries. The dimension becomes the key length, which is the old dimension for a well-formed tensor. |
| DenseTensor.EmptyRoundTrip | multiplication_matrix.py:26-27 | An empty tensor comes back as the empty tensor of dimension 0, whatever its dimension was. |
| Kernels.Matches | multiplication_matrix.py:102-379 | The twenty index tests exactly as written at lines 110, 124, 138, 152, 166, ..., 376. It has no contract of its own. `Kernels.KernelFollowsTable` states its meaning as the five-row table, and `Contraction.RuleOfAt` ties it to the loop's rule. |
| Kernels.NewKey | multiplication_matrix.py:102-379 | Every kernel's output key has as many components as the dimension the kernel declares, and that is rA + rB − 4, 2, 2, 1, 3 for methods 1 to 5. |
| Kernels.OutDimension | multiplication_matrix.py:102-379 | The dimension each of the twenty kernels hard-codes in its `return Tensor(...)` (lines 113, 127, ..., 379) is rA + rB less a drop fixed by the method alone: 4, 2, 2, 1 and 3 for methods 1 to 5. |
| Kernels.KernelFollowsTable | multiplication_matrix.py:102-379 | Each of the twenty kernels is the generic rule of its method. For example, method 1 tests a[rA−2]=b[0] ∧ a[rA−1]=b[1] and keeps A's prefix followed by B's free suffix. |
| Kernels.ScottKeyDeterminesPair | multiplication_matrix.py:213-323 | For methods 3 and 4, the output key starts with the whole A key, and B's matched indices repeat A's. So two matching pairs with the same output key are the same pair. |
| Kernels.SummingKeysCollide | multiplication_matrix.py:102-211 | For methods 1, 2 and 5, two different matching pairs can share an output key, which is why those kernels accumulate. |
| Contraction.Pairs | multiplication_matrix.py:105-108 | The two nested loops over `A.data.items()` and `B.data.items()`, as one sequence of visits. It has no contract of its own; `Contraction.PairsMembers`, `Contraction.PairsCount`, `Contraction.PairsOrder` and `Contraction.PairsAt` specify it. |
| Contraction.PairsMembers | multiplication_matrix.py:105-108 | The two loops visit exactly the pairs of an A entry and a B entry. |
| Contraction.PairsCount | multiplication_matrix.py:105-108 | The loops visit `len(A) * len(B)` pairs: each A entry once per B entry. |
| Contraction.PairsOrder | multiplication_matrix.py:105-108 | The pairs come in row-major order: the i-th A entry with the j-th B entry is visit number `i * len(B) + j`. The insertion order of the result depends on this. |
| Contraction.PairsAt | multiplication_matrix.py:105-108 | Row i of the visits starts after i full rows of `len(B)` pairs, and holds the i-th A entry with each B entry in B's order. |
| Contraction.RuleOf | multiplication_matrix.py:102-379 | Each kernel's rule declares rA + rB less the method's rank drop, and assembles keys of that length. Methods 1, 2 and 5 add; methods 3 and 4 overwrite. |
| Contraction.RuleOfAt | multiplication_matrix.py:102-379 | On keys of the kernel's ranks, the rule's test and key are the kernel's index test and key. |
| Contraction.AssigningRulesInjective | multiplication_matrix.py:213-323 | The rules of methods 3 and 4 never let two matching pairs share a key. |
| Contraction.Step | multiplication_matrix.py:110-112 | One run of the inner loop body. It has no contract of its own; `Contraction.StepSpec`, `Contraction.StepSumValue` and `Contraction.StepFresh` specify it. |
| Contraction.StepSpec | multiplication_matrix.py:110-112 | One loop-body run adds the matching pair's key and nothing else. It never duplicates a key and keeps keys at the declared length. |
| Contraction.StepSumValue | multiplication_matrix.py:112 | Under `result_data.get(new_key, 0) + value_a * value_b`, one step adds the pair's product at its key only. |
| Contraction.StepFresh | multiplication_matrix.py:224 | On a key not yet stored, overwriting and adding give the same dictionary, one entry longer. |
| Contraction.Fold | multiplication_matrix.py:104-112 | Both loops over the pairs in visiting order. It has no contract of its own; `Contraction.FoldSpec`, `Contraction.FoldKeys`, `Contraction.FoldSumValue` and `Contraction.AssignFoldIsSumFold` specify it. |
| Contraction.FoldSpec | multiplication_matrix.py:104-112 | The loops never duplicate a key and keep every key at the declared length. |
| Contraction.Run | multiplication_matrix.py:104-113 | The loops from an empty `result_data` return a tensor with distinct keys of the declared dimension. |
| Contraction.Kernel | multiplication_matrix.py:102-379 | Every kernel returns a fresh well-formed tensor of rank rA + rB less the method's rank drop. |
| Contraction.FoldSumValue | multiplication_matrix.py:104-112 | When products are added, a key ends with its starting value plus the sum of the products of the pairs that produce it. |
| Contraction.FoldKeys | multiplication_matrix.py:104-112 | The keys after the loops are the starting keys plus exactly the keys some matching pair produces. |
| Contraction.CollisionFreeTail | multiplication_matrix.py:216-224 | Dropping the first pair keeps a run of pairs free of key collisions. |
| Contraction.CollisionFreeHead | multiplication_matrix.py:216-224 | In a collision-free run, no later pair produces the first matching pair's key. |
| Contraction.AssignFoldIsSumFold | multiplication_matrix.py:216-224 | Suppose no two matching pairs share a key and none hits a stored key. Then overwriting equals adding, and each matching pair adds one entry. |
| Contraction.NoProducerNoContribution | multiplication_matrix.py:110-112 | Pairs that do not produce a key contribute nothing to it. |
| Contraction.CollisionFreeContribution | multiplication_matrix.py:216-224 | Without collisions, a matching pair's key receives exactly that pair's product. |
| Contraction.CollisionFreeConcat | multiplication_matrix.py:105-108 | Joining two collision-free runs whose keys never meet stays collision-free. |
| Contraction.PairsCollisionFree | multiplication_matrix.py:213-323 | For a rule where a key determines its pair, the pairs of two key-distinct tensors never collide. |
| Contraction.RunKeys | multiplication_matrix.py:104-113 | A rule's loops store a key exactly when some pair produces it, and store nothing when no pair matches. |
| Contraction.RunAssign | multiplication_matrix.py:216-225 | With an injective rule and key-distinct inputs, overwriting equals adding. There is one entry per matching pair, holding that pair's product. |
| Contraction.RunSingle | multiplication_matrix.py:104-113 | Two single-entry tensors give one entry holding the product when the pair matches, and nothing otherwise. |
| Contraction.SummingKernelValues | multiplication_matrix.py:102-379 | For methods 1, 2 and 5, the value at any key is the sum of `value_a * value_b` over exactly the pairs that pass the kernel's test and assemble that key, and 0 when there are none. |
| Contraction.RuleOnEntries | multiplication_matrix.py:104-108 | On the entries of tensors that unpack, every key has the kernel's ranks, and the rule is the kernel's test and key. |
| Contraction.KernelKeys | multiplication_matrix.py:102-379 | For every kernel, a key is in the result exactly when some A entry and B entry pass the kernel's index test and assemble it. |
| Contraction.KernelNoMatch | multiplication_matrix.py:102-379 | When no A entry and B entry pass the kernel's index test, every kernel returns a tensor with no entries. |
| Contraction.AssigningKernels | multiplication_matrix.py:213-323 | For methods 3 and 4 with key-distinct inputs, the result is what summation would give. It has one entry per matching pair, and each matching pair's key holds exactly `value_a * value_b`. |
| Contraction.AssigningKernelAt | multiplication_matrix.py:213-323 | For methods 3 and 4 with key-distinct inputs, the key a matching pair assembles holds exactly that pair's `value_a * value_b`. |
| Contraction.SingleEntries | multiplication_matrix.py:102-379 | Every kernel on two one-entry tensors gives one entry with the product at `NewKey` when the keys match, and nothing otherwise. |
| Dispatcher.ClassifyRanks | multiplication_matrix.py:396-405 | The rank pair is recognised exactly when the stored dimensions are (3,3), (4,4), (3,4) or (4,3). |
| Dispatcher.MethodNumbered | multiplication_matrix.py:407-458 | A product is selected exactly for method numbers 1 to 5, and each number selects its own product. |
| Dispatcher.MultiplyTensors | multiplication_matrix.py:383-458 | An unsupported rank pair is an error, whatever the method. Otherwise an unknown method is an error. Otherwise a key of the wrong length is an error. Otherwise the result is the kernel of that method and rank pair, well-formed and of the method's output rank. |
| Dispatcher.DimensionTypeIgnored | multiplication_matrix.py:383-405 | The `dimension_type` argument never changes the outcome. |
| Dispatcher.ExamplePairs | multiplication_matrix.py:105-108 | On the example tensors, the loops visit the four pairs in row-major order. |
| Dispatcher.ExampleSteps | multiplication_matrix.py:110-112 | On the example, only ((0,0,0),(0,0,0)) matches for methods 1 and 3, giving one entry with value 3. |
| Dispatcher.ExampleProduct | multiplication_matrix.py:383-458 | For methods 1 and 3 on the example, the dispatcher returns the square kernel's declared dimension and one entry, 3, at the key that kernel assembles from ((0,0,0), (0,0,0)). |
| Dispatcher.CayleyExample | multiplication_matrix.py:102-113 | Method 1 on A = {(0,0,0):1, (0,0,1):2} and B = {(0,0,0):3, (1,0,0):4} gives {(0,0): 3} of dimension 2. |
| Dispatcher.ScottExample | multiplication_matrix.py:214-225 | Method 3 on the same tensors gives {(0,0,0,0): 3} of dimension 4. |
| Dispatcher.UnsupportedExample | multiplication_matrix.py:404-405 | A rank-3 tensor against a rank-5 tensor is refused with the two dimensions, whatever the method. |

## Left out

- The Tkinter interface (`MatrixApp`, `MatrixEditor`): widgets, dialogs, clipboard and logging. It is user interface, not tensor logic.
- Random tensor generation, which uses `random`. Its timing with `time.time()` is also left out, because clocks and randomness have no model here.
- Text-entry parsing and `convert_sokolov_to_python`. Parsing goes through Python `eval`, which cannot be modelled.
- Display formatting (`matrix_to_string_sokolov` and its helper), which is presentation only.
- The duplicated rank check in `perform_multiplication`: it is a user-interface guard in front of the dispatcher modelled here.
- Floating point: scalars are exact reals. Rounding, and therefore summation order, is not modelled.
- Python value types: keys are integer sequences and method numbers are integers. Non-tuple keys, non-numeric values and non-integer method arguments are not modelled.
- Object identity: tensors are immutable values. That every kernel returns a fresh `Tensor` and leaves both inputs unchanged therefore holds by construction, and is not a separate contract.
- Kernel key unpacking: the `ValueError` Python raises when a key has the wrong number of indices is modelled as the error `KeyArity` of `Dispatcher.MultiplyTensors`. It is raised exactly when A has an entry and some A or B key has the wrong length. The model does not record which partial loop iteration raised it, because nothing is returned in that case.
- DenseTensor.ToNestedList: requires all keys to share one length of at least 1, and no index to be negative. The source behaves as follows outside that. A negative index makes `idx + 1` shrink or empty an axis, so the write at line 57 or 59 wraps around or raises `IndexError`. A key shorter than the shape silently replaces a whole sublist with its value. For example, data `{(1,0): v1, (1,): v2}` gives `[[0.0], v2]`. A longer key written after a shorter one on the same path raises `TypeError` at line 57 or 59, when it indexes a float. A zero-length key next to longer keys raises `IndexError` at line 59 (`indices[0]` on `()`). Only zero-length keys leave the shape empty, and then `_create_nested_list` raises at line 52. None of these mixed or negative cases is modelled.
- Contraction.SummingKernelValues: states the value through the kernel's `Rule`, whose test and key `Contraction.RuleOfAt` identifies with the kernel's index test and key on keys of the kernel's ranks, rather than through `Kernels.Matches` directly. It gives the value as an exact sum in loop order. That the sum does not depend on the order of the entries holds for reals but is not proved separately.
