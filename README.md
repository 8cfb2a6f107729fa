# Binary heap and default comparators

This project models two parts of the transport-system repository and proves
properties of the model.

- `DataStructs/Trees/heap.py` is an array-backed binary min-heap.
  Its elements sit in level order in a resizable list. The node at index `i`
  has its parent at `(i - 1) // 2`. A caller-supplied three-way comparator
  orders the elements, and "greater" means `cmp(x, y) > 0`.
  `insert` appends an element and swims it up. `delete_min` moves the last
  element to the root, drops the last slot and sinks the new root.
- `Utils/default.py` holds the default comparison functions of the other
  data structures. Each is a chain of Python comparisons. It returns -1, 0 or
  1, raises `TypeError` or `KeyError`, or runs off its end and returns `None`.

Files:

- `wrappers.dfy`: module `Wrappers`, an `Option` type for Python's `None`.
- `heap.dfy`: module `Heaps`.
  - The heap record is the class `Heap<T>`. Its fields are
    `elements: seq<T>` (the backing list), `size: nat` and the constant
    comparator `cmp`.
  - `Valid()` states three things: `size == |elements|`, the comparator is a
    total preorder, and the list is heap-ordered.
  - `_swim` and `_sink` are `while` loops. Each loop is proved equal to a pure
    function (`SwimSpec`, `SinkSpec`) that takes one step per call.
  - Lemmas about those functions prove that each one permutes the list and
    restores heap order.
  - `_greater` is the predicate `Greater`. `_exchange` is `Swap` on the list,
    used by the method `Exchange`.
  - `Drain` gives the values that repeated `delete_min` returns.
- `default.dfy`: module `Comparators`.
  - Python values are a tagged datatype: `None`, int, str, tuple, list and
    dict with string keys.
  - Python's `<` is `PyLt`. Its `None` result stands for the `TypeError` that
    Python raises when two values cannot be ordered. Python's `>` is `PyLt`
    with its arguments swapped, which is exact for these values.
  - The four comparators are modelled by `LtDfltCmp`, `HtDefaultCmpOld`,
    `HtDefaultCmp` and `BtDefaultCmp`. Each returns an `Outcome`:
    `Ok(sign)`, `TypeErr`, `KeyErr`, or `NoResult` when no `return` is reached.
  - `isinstance(v, VALID_DATA_TYPE_LT)` is `IsValidDataType`. The tuple ends
    with `dataclass`, which is a function and not a type, so the call answers
    true for the listed native types and raises `TypeError` for anything else
    (here `None`). `IsValidDataTypeIntended` is the test evidently meant: false
    for `None`. The two variants of each comparator built on them are compared
    under "## Findings".

What the heap requires of its comparator is that "not greater"
(`cmp(x, y) <= 0`) is a total preorder: any two elements are ordered, and the
order is transitive. The source only ever tests `cmp(...) > 0`. So the model
does not require results in {-1, 0, 1}, although every comparator here
returns those values.

The sink step compares the node with the smaller child. It moves to the right
child only when the left child is greater than the right one (heap.py:93-97),
and `SinkSpec` does the same.

## Model

| member | source | states |
|---|---|---|
| Heaps.DfltHeapElmCmp | DataStructs/Trees/heap.py:6-11 | The result is in {-1, 0, 1}. It is positive exactly when the first argument is greater and negative exactly when it is smaller. |
| Heaps.DfltHeapElmCmpIsTotalPreorder | DataStructs/Trees/heap.py:6-11 | The default comparator is antisymmetric, `cmp(a, b) == -cmp(b, a)`, and is a total preorder, so a heap may be built on it. |
| Heaps.Heap.constructor | DataStructs/Trees/heap.py:14-21 | A new heap is valid and empty, `size` is 0, and its comparator is the one supplied. |
| Heaps.NewHeap | DataStructs/Trees/heap.py:14-21 | Returns a fresh, valid, empty heap. Its comparator is the one supplied, or `dflt_heap_elm_cmp` when none is given. |
| Heaps.Heap.Size | DataStructs/Trees/heap.py:26-30 | The size returned is the number of elements held. |
| Heaps.Heap.IsEmpty | DataStructs/Trees/heap.py:33-37 | True exactly when the heap holds no element. |
| Heaps.Heap.GetMin | DataStructs/Trees/heap.py:40-46 | `None` exactly when the heap is empty. Otherwise returns `elements[0]`, which is not greater than any element held. Nothing is changed, because it is a function. |
| Heaps.Greater | DataStructs/Trees/heap.py:108-112 | Definition, no contract: `_greater`, true exactly when `cmp(x, y) > 0`. Its order properties are proved by `GreaterIsStrictOrder`. |
| Heaps.GreaterIsStrictOrder | DataStructs/Trees/heap.py:108-112 | Under a total-preorder comparator, "greater" is irreflexive, asymmetric and transitive. |
| Heaps.RootIsMinimal | DataStructs/Trees/heap.py:40-44 | In a heap-ordered list, the element at index 0 is not greater than any element. The proof climbs the chain of parents. |
| Heaps.SwapPermutes | DataStructs/Trees/heap.py:115-119 | An exchange keeps the length and the multiset of elements. |
| Heaps.Heap.Exchange | DataStructs/Trees/heap.py:115-119 | The list becomes the old list with the two positions exchanged. The multiset and `size` are unchanged. |
| Heaps.Heap.Swim | DataStructs/Trees/heap.py:73-85 | The loop leaves exactly the list that `SwimSpec` gives from the old list and the start index, and `size` is unchanged. The loop terminates because `idx` strictly decreases. |
| Heaps.SwimPermutes | DataStructs/Trees/heap.py:73-83 | Swimming keeps the length and the multiset of elements. |
| Heaps.SwimStep | DataStructs/Trees/heap.py:79-81 | Suppose heap order holds everywhere except between `idx` and its parent, and the parent is greater. Then after one exchange the only possible violation is between the parent and the grandparent. |
| Heaps.SwimRestoresOrder | DataStructs/Trees/heap.py:73-83 | Start from "ordered except above `idx`". Swimming, which stops at the root or at the first parent that is not greater, leaves the whole list heap-ordered. |
| Heaps.Heap.Sink | DataStructs/Trees/heap.py:88-105 | The loop reads its bound from `size` and leaves exactly the list that `SinkSpec` gives. Indices stay below `size`, and `size` is unchanged. |
| Heaps.SinkPermutes | DataStructs/Trees/heap.py:88-103 | Sinking keeps the length and the multiset of elements. |
| Heaps.SinkStep | DataStructs/Trees/heap.py:93-103 | Suppose heap order holds everywhere except below `idx`, the chosen child is not greater than its sibling, and the node is greater than that child. Then after the exchange the only possible violation is below the child. |
| Heaps.SinkRestoresOrder | DataStructs/Trees/heap.py:88-103 | Start from "ordered except below `idx`". Sinking toward the smaller child, and stopping when the node is not greater than it, leaves the whole list heap-ordered. |
| Heaps.InsertKeepsHeap | DataStructs/Trees/heap.py:49-53 | Appending to a heap-ordered list and then swimming from the last index keeps heap order. The length grows by exactly 1, and the multiset gains exactly the new element. |
| Heaps.Heap.Insert | DataStructs/Trees/heap.py:49-55 | The heap stays valid and `size` grows by 1. The multiset becomes the old one plus the element, and the list is `InsertSpec` of the old list. |
| Heaps.DeleteMinKeepsHeap | DataStructs/Trees/heap.py:58-68 | On a non-empty heap-ordered list, the following keeps heap order: move the last element to the root, drop the last slot, and sink from 0. The length drops by 1, and exactly one copy of the old root is removed from the multiset. |
| Heaps.DeleteMinReturnsMinimum | DataStructs/Trees/heap.py:58-68 | The root that `delete_min` returns is not greater than anything left in the heap, so it is not greater than the next root either. |
| Heaps.Heap.DeleteMin | DataStructs/Trees/heap.py:58-70 | On an empty heap: returns `None` and changes nothing. Otherwise: returns the old `elements[0]`, `size` drops by 1, the multiset loses that root, and the list is `DeleteMinSpec` of the old one. The value returned is not greater than any element left. The heap stays valid in both cases. |
| Heaps.DrainIsSortedPermutation | DataStructs/Trees/heap.py:58-68 | Repeat `delete_min` on a heap until it is empty. The values returned are a permutation of the elements held, and they are non-decreasing under the comparator. |
| Comparators.KindOf | Utils/default.py:91 | Definition, no contract: `type(v)`, the runtime type that `type(elm1) is not type(elm2)` compares. |
| Comparators.DictGet | Utils/default.py:99-100 | Definition, no contract: `dict.get(k)`, the entry, or `None` when the key is missing. |
| Comparators.StrLt | Utils/default.py:124 | Definition, no contract: Python's `<` on two strings, lexicographic by code point. Its order properties are proved by `StrLtIsStrictTotal` and `StrLtIsTransitive`. |
| Comparators.PyLt | Utils/default.py:124-128 | Definition, no contract: Python's `<` on the modelled values, `None` where Python raises `TypeError` (different types, dicts, `None`). Its order properties are proved by `PyLtIsStrictTotal` and `PyLtIsTransitive`. |
| Comparators.SeqLt | Utils/default.py:213-219 | Definition, no contract: Python's lexicographic `<` on tuples and lists. The first position whose items differ decides, otherwise the shorter one is smaller. Its order properties are proved by `SeqLtIsStrictTotal` and `SeqLtIsTransitive`. |
| Comparators.StrLtIsStrictTotal | Utils/default.py:124 | String `<` is asymmetric, and two strings neither of which is below the other are equal. |
| Comparators.StrLtIsTransitive | Utils/default.py:124 | String `<` is transitive. |
| Comparators.PyLtIsStrictTotal | Utils/default.py:124-128 | Wherever Python's `<` does not raise on these values, it is asymmetric and trichotomous: exactly one of `a < b`, `a == b`, `b < a` holds. Whether it raises does not depend on the order of the arguments. |
| Comparators.PyLtIsTransitive | Utils/default.py:124-128 | `a < b` and `b < c` give `a < c`. With `PyLtIsStrictTotal`, Python's `<` is a strict total order wherever it does not raise. |
| Comparators.SeqLtIsStrictTotal | Utils/default.py:213-219 | The same as `PyLtIsStrictTotal`, for lexicographic comparison of tuples and lists. |
| Comparators.SeqLtIsTransitive | Utils/default.py:213-219 | Lexicographic `<` on tuples and lists is transitive. |
| Comparators.LtGtCmp | Utils/default.py:122-131 | Covers `a < b: -1`, then `a > b: 1`, then `0`. Raises exactly when Python cannot order the values. Returns -1 exactly when `a < b`, 1 exactly when `b < a`, and 0 exactly when the values are orderable and equal. |
| Comparators.LtEqGtCmp | Utils/default.py:106-120 | The chain `<`, then `==`, then `>`, then raise gives the same outcome as `LtGtCmp` on every pair of values. Its final `TypeError` branch cannot be reached. |
| Comparators.DictIdCmp | Utils/default.py:98-120 | `KeyError` exactly when either `"id"` entry is missing or is `None`. Otherwise the outcome is that of ordering the two `"id"` entries. |
| Comparators.LtDfltCmp | Utils/default.py:71-131 | Covers several cases. Values of different types give `TypeError` before any key is looked at. A `None` value gives `TypeError`. `None` is returned exactly when `key` is `None` and the types match. `KeyError` exactly for two dicts whose `"id"` is missing or `None`. Otherwise it is `TypeError` when Python cannot order the values (or their `"id"` entries, for dicts), and else a sign in {-1, 0, 1} that orders them. `LtDfltCmpIntended` and `LtDfltCmpIntendedRaisesOnlyWhenUnordered` give the exact raising condition. |
| Comparators.LtDfltCmpAntisymmetric | Utils/default.py:91-131 | Swapping the arguments leaves `TypeErr` and `KeyErr` as they are and negates an integer result. |
| Comparators.HtDefaultCmpOld | Utils/default.py:134-157 | Comparing with the entry's key: different types give `TypeError`. The result is 0 exactly when the keys are equal, and 1 exactly when they differ and key1 is greater. Otherwise it is -1 or `TypeError`. |
| Comparators.HtDefaultCmpOldAgreesWithBt | Utils/default.py:148-157 | The old hash-table comparator gives the same outcome as the tree comparator on every pair of keys. |
| Comparators.HtDefaultCmp | Utils/default.py:160-236 | Reads the entry's key. Different types give `TypeError`, and so does a `None` key. `None` is returned exactly when `key` is `None` and the types match. Any integer result is in {-1, 0, 1}. |
| Comparators.HtDefaultCmpAgreesWithLtDflt | Utils/default.py:208-225 | Turning tuples into lists before comparing changes nothing. On every input, the newer hash-table comparator gives the same outcome as `lt_dflt_cmp_function` applied to the entry's key. |
| Comparators.BtDefaultCmp | Utils/default.py:239-256 | `key` is not read. The result is 0 exactly when the keys are equal. It is -1 exactly when they differ and key1 < key2. It is `TypeError` exactly when they differ and cannot be ordered. Otherwise it is 1. |
| Comparators.BtDefaultCmpAntisymmetric | Utils/default.py:251-256 | Swapping the keys negates the result and leaves `TypeError` as it is. |
| Comparators.LtGtCmpAntisymmetric | Utils/default.py:122-131 | Swapping the values negates the sign and leaves `TypeError` as it is. |
| Comparators.ScalarKeysAreAlwaysOrdered | Utils/default.py:239-256 | Two ints, or two strs, never make `bt_default_cmp_funcion` raise. With a key given, `lt_dflt_cmp_function` returns the same integer for them. |
| Comparators.LtDfltCmpRaisesOnNone | Utils/default.py:88-89 | As written, `lt_dflt_cmp_function("id", None, None)` raises `TypeError`. With the intended `isinstance` it returns `None`. |
| Comparators.LtDfltCmpIntended | Utils/default.py:88-131 | With the intended `isinstance`, type mismatch still raises first. The result is `None` exactly when the types match and either no key is given or both values are `None`. On values other than `None` it agrees with the code as written. |
| Comparators.LtDfltCmpIntendedRaisesOnlyWhenUnordered | Utils/default.py:91-131 | With the intended `isinstance`, `TypeError` arises exactly from a type mismatch or from values, or `"id"` entries, that Python cannot order. |
| Comparators.HtDefaultCmpRaisesOnNone | Utils/default.py:175-176 | As written, a `None` key makes `ht_default_cmp_funcion` raise `TypeError`. With the intended `isinstance` it returns `None`. |
| Comparators.HtDefaultCmpIntended | Utils/default.py:175-236 | With the intended `isinstance`, the function agrees with the code as written on keys other than `None`, and returns `None` for two `None` keys. |
| Comparators.HtDefaultCmpIntendedRaisesOnlyWhenUnordered | Utils/default.py:178-236 | With the intended `isinstance`, `TypeError` arises exactly from a type mismatch or from keys, or `"id"` entries, that Python cannot order. |

## Left out

- The backing array list (`DataStructs.List.arlt`) is not part of this model.
  - It is a `seq` field. `add_last`, `remove_last`, `get_element`, `update`
    and `exchange` are sequence operations.
  - The comparator that `new_heap` passes to the list is not modelled, because
    the heap never uses the list's own comparator.
  - The list object is a value, so aliasing of it by callers is not captured.
- The error handler (`Utils.error.error_handler`) and the `try`/`except` around
  every heap function are not part of this model.
  - The comparator is required to be total and never to raise.
  - A comparator raising halfway through `_sink` or `_swim`, and the partial
    state that would leave, is not modelled.
- Heaps.DfltHeapElmCmp: covers integers only. On other Python values `>` and
  `<` can raise, and the heap model requires a comparator that does not fail.
  The comparators in `Comparators` model Python's ordering of the other values.
- Heaps.Heap.Sink: requires `size == |elements|`. `delete_min`, its only
  caller, sets up exactly that.
- Runtime type introspection beyond the modelled values is left out because it
  depends on the whole Python object model. This covers floats, bools (which
  Python treats as ints), sets (subset order is not total), user-defined
  objects and dataclass instances.
- `VALID_IO_TYPE` and `DFLT_PRIME` (Utils/default.py:46-59) are not used by
  any modelled function.
- The `value` half of a hash-table entry is carried but never read, as in the
  source.
- The transport-route demonstration code that uses the heap is not modelled.
  It rebuilds the heap on every update and computes priorities in floating
  point.

## Findings

| source | as written | input that shows it | evidently intended | confidence | as-written member | corrected member |
|---|---|---|---|---|---|---|
| Utils/default.py:88-89 | `isinstance(elm, VALID_DATA_TYPE_LT)` raises `TypeError` for any value not of the eight listed types. The tuple ends with `dataclass`, which is a function, not a type. | `lt_dflt_cmp_function("id", None, None)` raises `TypeError` at line 88. | `isinstance` answers false for such values, and the comparison chain decides. | high (not executed) | Comparators.LtDfltCmpRaisesOnNone | Comparators.LtDfltCmpIntendedRaisesOnlyWhenUnordered |
| Utils/default.py:175-176 | The same `isinstance` call in `ht_default_cmp_funcion` raises for a `None` key. | `ht_default_cmp_funcion("id", None, entry)` where `entry.get_key()` is `None` raises `TypeError` at line 175. | `isinstance` answers false, and the chain falls through to return `None`. | high (not executed) | Comparators.HtDefaultCmpRaisesOnNone | Comparators.HtDefaultCmpIntendedRaisesOnlyWhenUnordered |
