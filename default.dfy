/**
 * The default comparison functions shared by the abstract data types
 * (Utils/default.py).  Each one is a chain of Python comparisons that ends in
 * -1, 0 or 1, raises, or falls off the end of the function.
 *
 * Python's native values are modelled by a tagged datatype, Python's `<` by
 * `PyLt`, whose `None` result stands for the `TypeError` Python raises when
 * two values cannot be ordered.
 */
module Comparators {
  import opened Wrappers

  /** DFLT_DICT_KEY: the entry two dictionaries are compared by. */
  const DfltDictKey: string := "id"

  /** The native Python values the comparators see.  `Null` is Python's `None`. */
  datatype Value =
    | Null
    | Int(i: int)
    | Str(s: string)
    | Tuple(items: seq<Value>)
    | List(elems: seq<Value>)
    | Dict(entries: map<string, Value>)

  /** `type(v)`: the runtime type, compared with `is` by the comparators. */
  datatype Kind = NoneType | IntType | StrType | TupleType | ListType | DictType

  function KindOf(v: Value): Kind {
    match v
    case Null => NoneType
    case Int(_) => IntType
    case Str(_) => StrType
    case Tuple(_) => TupleType
    case List(_) => ListType
    case Dict(_) => DictType
  }

  /** What a comparator call ends in: a returned integer, one of the two
    * exceptions it raises, or no return statement reached (Python's `None`). */
  datatype Outcome = Ok(sign: int) | TypeErr | KeyErr | NoResult

  /** A hash-table entry; the comparators read only its key (`get_key()`). */
  datatype MapEntry = MapEntry(key: Value, value: Value)

  /** Python's `<` on two strings: lexicographic by code point. */
  function StrLt(a: string, b: string): bool {
    if |a| == 0 then |b| > 0
    else if |b| == 0 then false
    else if a[0] != b[0] then a[0] < b[0]
    else StrLt(a[1..], b[1..])
  }

  /** Python's `a < b`; `None` when Python raises `TypeError` (values of
    * different types, dictionaries, `None`). */
  function PyLt(a: Value, b: Value): Option<bool>
    decreases a
  {
    match (a, b)
    case (Int(x), Int(y)) => Some(x < y)
    case (Str(x), Str(y)) => Some(StrLt(x, y))
    case (Tuple(xs), Tuple(ys)) => SeqLt(xs, ys)
    case (List(xs), List(ys)) => SeqLt(xs, ys)
    case _ => None
  }

  /** Python's lexicographic `<` on tuples and lists: the first position whose
    * items differ (by `==`) decides, otherwise the shorter one is smaller. */
  function SeqLt(xs: seq<Value>, ys: seq<Value>): Option<bool>
    decreases xs
  {
    if |xs| == 0 || |ys| == 0 then Some(|xs| < |ys|)
    else if xs[0] != ys[0] then PyLt(xs[0], ys[0])
    else SeqLt(xs[1..], ys[1..])
  }

  /** Python's `a > b`.  On these values it is `b < a`: integers and strings
    * are mirrored, tuples and lists look at the same first differing items. */
  function PyGt(a: Value, b: Value): Option<bool> {
    PyLt(b, a)
  }

  lemma {:induction false} StrLtIsStrictTotal(a: string, b: string)
    ensures !(StrLt(a, b) && StrLt(b, a))
    ensures !StrLt(a, b) && !StrLt(b, a) ==> a == b
  {
    if |a| > 0 && |b| > 0 && a[0] == b[0] {
      StrLtIsStrictTotal(a[1..], b[1..]);
      assert a == [a[0]] + a[1..] && b == [b[0]] + b[1..];
    }
  }

  /** Python's `<` on these values is a strict total order wherever it does
    * not raise, and whether it raises does not depend on the argument order. */
  lemma {:induction false} PyLtIsStrictTotal(a: Value, b: Value)
    ensures PyLt(a, b).None? <==> PyLt(b, a).None?
    ensures PyLt(a, b) == Some(true) ==> PyLt(b, a) == Some(false)
    ensures PyLt(a, b) == Some(false) && PyLt(b, a) == Some(false) ==> a == b
    decreases a
  {
    match (a, b)
    case (Int(_), Int(_)) =>
    case (Str(x), Str(y)) => StrLtIsStrictTotal(x, y);
    case (Tuple(xs), Tuple(ys)) => SeqLtIsStrictTotal(xs, ys);
    case (List(xs), List(ys)) => SeqLtIsStrictTotal(xs, ys);
    case _ =>
  }

  lemma {:induction false} SeqLtIsStrictTotal(xs: seq<Value>, ys: seq<Value>)
    ensures SeqLt(xs, ys).None? <==> SeqLt(ys, xs).None?
    ensures SeqLt(xs, ys) == Some(true) ==> SeqLt(ys, xs) == Some(false)
    ensures SeqLt(xs, ys) == Some(false) && SeqLt(ys, xs) == Some(false) ==> xs == ys
    decreases xs
  {
    if |xs| == 0 || |ys| == 0 {
    } else if xs[0] != ys[0] {
      PyLtIsStrictTotal(xs[0], ys[0]);
    } else {
      SeqLtIsStrictTotal(xs[1..], ys[1..]);
      assert xs == [xs[0]] + xs[1..] && ys == [ys[0]] + ys[1..];
    }
  }

  /** Python's `<` is transitive on strings. */
  lemma {:induction false} StrLtIsTransitive(a: string, b: string, c: string)
    requires StrLt(a, b) && StrLt(b, c)
    ensures StrLt(a, c)
  {
    if |a| > 0 && a[0] == b[0] && b[0] == c[0] {
      StrLtIsTransitive(a[1..], b[1..], c[1..]);
    }
  }

  /** Python's `<` is transitive on these values: with `PyLtIsStrictTotal` it
    * is a strict total order wherever it does not raise. */
  lemma {:induction false} PyLtIsTransitive(a: Value, b: Value, c: Value)
    requires PyLt(a, b) == Some(true) && PyLt(b, c) == Some(true)
    ensures PyLt(a, c) == Some(true)
    decreases a
  {
    match (a, b, c)
    case (Int(_), Int(_), Int(_)) =>
    case (Str(x), Str(y), Str(z)) => StrLtIsTransitive(x, y, z);
    case (Tuple(xs), Tuple(ys), Tuple(zs)) => SeqLtIsTransitive(xs, ys, zs);
    case (List(xs), List(ys), List(zs)) => SeqLtIsTransitive(xs, ys, zs);
  }

  lemma {:induction false} SeqLtIsTransitive(xs: seq<Value>, ys: seq<Value>, zs: seq<Value>)
    requires SeqLt(xs, ys) == Some(true) && SeqLt(ys, zs) == Some(true)
    ensures SeqLt(xs, zs) == Some(true)
    decreases xs
  {
    if |xs| > 0 && |ys| > 0 && |zs| > 0 {
      if xs[0] != ys[0] && ys[0] != zs[0] {
        PyLtIsTransitive(xs[0], ys[0], zs[0]);
        PyLtIsStrictTotal(xs[0], xs[0]);
      } else if xs[0] == ys[0] && ys[0] == zs[0] {
        SeqLtIsTransitive(xs[1..], ys[1..], zs[1..]);
      }
    }
  }

  /** `isinstance(v, VALID_DATA_TYPE_LT)` as written.  The tuple lists int,
    * float, str, bool, dict, list, tuple, set and then `dataclass`, which is a
    * function and not a type: Python tries the entries in order, so a value of
    * one of the first eight types answers `True`, and any other value (here
    * `None`) reaches `dataclass` and raises `TypeError` (`None` result). */
  function IsValidDataType(v: Value): Option<bool> {
    if v.Null? then None else Some(true)
  }

  /** The `isinstance` test evidently intended: `True` for the listed native
    * types, `False` for anything else. */
  function IsValidDataTypeIntended(v: Value): bool {
    !v.Null?
  }

  /** `dict.get(k)`: the entry, or `None` when the key is missing. */
  function DictGet(m: map<string, Value>, k: string): Value {
    if k in m then m[k] else Null
  }

  /** `if a < b: -1 elif a > b: 1 else: 0`, each comparison able to raise.
    * It returns -1, 0 or 1 exactly as Python orders the two values. */
  function LtGtCmp(a: Value, b: Value): (r: Outcome)
    ensures r.TypeErr? || r == Ok(-1) || r == Ok(0) || r == Ok(1)
    ensures r.TypeErr? <==> PyLt(a, b).None?
    ensures r == Ok(-1) <==> PyLt(a, b) == Some(true)
    ensures r == Ok(1) <==> PyLt(b, a) == Some(true)
    ensures r == Ok(0) <==> PyLt(a, b).Some? && a == b
  {
    PyLtIsStrictTotal(a, b);
    PyLtIsStrictTotal(a, a);
    match PyLt(a, b)
    case None => TypeErr
    case Some(true) => Ok(-1)
    case Some(false) =>
      match PyGt(a, b)
      case None => TypeErr
      case Some(true) => Ok(1)
      case Some(false) => Ok(0)
  }

  /** `if a < b: -1 elif a == b: 0 elif a > b: 1 else: raise TypeError`.
    * Its last branch cannot be reached on these values, so it orders exactly
    * as `LtGtCmp` does. */
  function LtEqGtCmp(a: Value, b: Value): (r: Outcome)
    ensures r == LtGtCmp(a, b)
  {
    PyLtIsStrictTotal(a, b);
    match PyLt(a, b)
    case None => TypeErr
    case Some(true) => Ok(-1)
    case Some(false) =>
      if a == b then Ok(0)
      else if PyGt(a, b) == Some(true) then Ok(1)
      else TypeErr
  }

  /** The dictionary branch of two comparators: both `"id"` entries must be
    * present and not `None` (else `KeyError`); then they are ordered. */
  function DictIdCmp(m1: map<string, Value>, m2: map<string, Value>): (r: Outcome)
    ensures r.KeyErr? <==> DictGet(m1, DfltDictKey).Null? || DictGet(m2, DfltDictKey).Null?
    ensures !r.KeyErr? ==> r == LtGtCmp(DictGet(m1, DfltDictKey), DictGet(m2, DfltDictKey))
  {
    var key1 := DictGet(m1, DfltDictKey);
    var key2 := DictGet(m2, DfltDictKey);
    if key1 == Null || key2 == Null then KeyErr
    else LtEqGtCmp(key1, key2)
  }

  /** The body of `lt_dflt_cmp_function` after the two `isinstance` calls;
    * `native` is the conjunction of their answers. */
  function LtDfltChain(key: Option<string>, elm1: Value, elm2: Value, native: bool): Outcome {
    if KindOf(elm1) != KindOf(elm2) then TypeErr
    else if key.None? then NoResult
    else if elm1.Dict? && elm2.Dict? then DictIdCmp(elm1.entries, elm2.entries)
    else if native then LtGtCmp(elm1, elm2)
    else NoResult
  }

  /** `lt_dflt_cmp_function(key, elm1, elm2)`, as written. */
  function LtDfltCmp(key: Option<string>, elm1: Value, elm2: Value): (r: Outcome)
    ensures KindOf(elm1) != KindOf(elm2) ==> r == TypeErr
    ensures elm1.Null? || elm2.Null? ==> r == TypeErr
    ensures r.NoResult? <==> key.None? && KindOf(elm1) == KindOf(elm2) && !elm1.Null?
    ensures r.KeyErr? <==>
              key.Some? && elm1.Dict? && elm2.Dict? &&
              (DictGet(elm1.entries, DfltDictKey).Null? || DictGet(elm2.entries, DfltDictKey).Null?)
    ensures r.Ok? ==> r.sign in {-1, 0, 1}
    ensures r.Ok? && !elm1.Dict? ==>
              && (r.sign == -1 <==> PyLt(elm1, elm2) == Some(true))
              && (r.sign == 0 <==> elm1 == elm2)
              && (r.sign == 1 <==> PyLt(elm2, elm1) == Some(true))
    ensures r.Ok? && elm1.Dict? ==>
              var id1, id2 := DictGet(elm1.entries, DfltDictKey), DictGet(elm2.entries, DfltDictKey);
              && (r.sign == -1 <==> PyLt(id1, id2) == Some(true))
              && (r.sign == 0 <==> id1 == id2)
              && (r.sign == 1 <==> PyLt(id2, id1) == Some(true))
  {
    var t1 := IsValidDataType(elm1);
    var t2 := IsValidDataType(elm2);
    if t1.None? || t2.None? then TypeErr
    else LtDfltChain(key, elm1, elm2, t1.value && t2.value)
  }

  /** `lt_dflt_cmp_function` with `isinstance` answering as intended. */
  function LtDfltCmpIntended(key: Option<string>, elm1: Value, elm2: Value): (r: Outcome)
    ensures KindOf(elm1) != KindOf(elm2) ==> r == TypeErr
    ensures r.NoResult? <==> KindOf(elm1) == KindOf(elm2) && (key.None? || elm1.Null?)
    ensures !elm1.Null? && !elm2.Null? ==> r == LtDfltCmp(key, elm1, elm2)
  {
    LtDfltChain(key, elm1, elm2, IsValidDataTypeIntended(elm1) && IsValidDataTypeIntended(elm2))
  }

  /** `ht_default_cmp_funcion_old(key1, entry2)`. */
  function HtDefaultCmpOld(key1: Value, entry2: MapEntry): (r: Outcome)
    ensures r.TypeErr? || r == Ok(-1) || r == Ok(0) || r == Ok(1)
    ensures KindOf(key1) != KindOf(entry2.key) ==> r == TypeErr
    ensures r == Ok(0) <==> key1 == entry2.key
    ensures r == Ok(1) <==> key1 != entry2.key && PyGt(key1, entry2.key) == Some(true)
  {
    var key2 := entry2.key;
    if KindOf(key1) != KindOf(key2) then TypeErr
    else if key1 == key2 then Ok(0)
    else
      match PyGt(key1, key2)
      case None => TypeErr
      case Some(true) => Ok(1)
      case Some(false) => Ok(-1)
  }

  /** The body of `ht_default_cmp_funcion` after the two `isinstance` calls. */
  function HtChain(key: Option<string>, ekey1: Value, ekey2: Value, native: bool): Outcome {
    if KindOf(ekey1) != KindOf(ekey2) then TypeErr
    else if key.None? then NoResult
    else if ekey1.Dict? && ekey2.Dict? then DictIdCmp(ekey1.entries, ekey2.entries)
    else if ekey1.Tuple? && ekey2.Tuple? then LtEqGtCmp(List(ekey1.items), List(ekey2.items))
    else if native then LtGtCmp(ekey1, ekey2)
    else NoResult
  }

  /** `ht_default_cmp_funcion(key, ekey1, entry2)`, as written. */
  function HtDefaultCmp(key: Option<string>, ekey1: Value, entry2: MapEntry): (r: Outcome)
    ensures KindOf(ekey1) != KindOf(entry2.key) ==> r == TypeErr
    ensures ekey1.Null? || entry2.key.Null? ==> r == TypeErr
    ensures r.NoResult? <==> key.None? && KindOf(ekey1) == KindOf(entry2.key) && !ekey1.Null?
    ensures r.Ok? ==> r.sign in {-1, 0, 1}
  {
    var ekey2 := entry2.key;
    var t1 := IsValidDataType(ekey1);
    var t2 := IsValidDataType(ekey2);
    if t1.None? || t2.None? then TypeErr
    else HtChain(key, ekey1, ekey2, t1.value && t2.value)
  }

  /** `ht_default_cmp_funcion` with `isinstance` answering as intended. */
  function HtDefaultCmpIntended(key: Option<string>, ekey1: Value, entry2: MapEntry): (r: Outcome)
    ensures KindOf(ekey1) != KindOf(entry2.key) ==> r == TypeErr
    ensures r.NoResult? <==> KindOf(ekey1) == KindOf(entry2.key) && (key.None? || ekey1.Null?)
    ensures !ekey1.Null? && !entry2.key.Null? ==> r == HtDefaultCmp(key, ekey1, entry2)
  {
    HtChain(key, ekey1, entry2.key,
            IsValidDataTypeIntended(ekey1) && IsValidDataTypeIntended(entry2.key))
  }

  /** `bt_default_cmp_funcion(key, key1, key2)`: `key` is not read. */
  function BtDefaultCmp(key: Option<string>, key1: Value, key2: Value): (r: Outcome)
    ensures r.TypeErr? || r == Ok(-1) || r == Ok(0) || r == Ok(1)
    ensures r == Ok(0) <==> key1 == key2
    ensures r == Ok(-1) <==> key1 != key2 && PyLt(key1, key2) == Some(true)
    ensures r.TypeErr? <==> key1 != key2 && PyLt(key1, key2).None?
  {
    if key1 == key2 then Ok(0)
    else
      match PyLt(key1, key2)
      case None => TypeErr
      case Some(true) => Ok(-1)
      case Some(false) => Ok(1)
  }

  /** Ordering two keys one way round is the mirror of ordering them the
    * other way round, and raising does not depend on the order. */
  lemma LtGtCmpAntisymmetric(a: Value, b: Value)
    ensures LtGtCmp(a, b).TypeErr? <==> LtGtCmp(b, a).TypeErr?
    ensures LtGtCmp(a, b).Ok? ==> LtGtCmp(b, a) == Ok(-LtGtCmp(a, b).sign)
  {
    PyLtIsStrictTotal(a, b);
  }

  lemma BtDefaultCmpAntisymmetric(key: Option<string>, key1: Value, key2: Value)
    ensures BtDefaultCmp(key, key1, key2).TypeErr? <==> BtDefaultCmp(key, key2, key1).TypeErr?
    ensures BtDefaultCmp(key, key1, key2).Ok? ==>
              BtDefaultCmp(key, key2, key1) == Ok(-BtDefaultCmp(key, key1, key2).sign)
  {
    PyLtIsStrictTotal(key1, key2);
  }

  /** Two integers, or two strings, are always ordered: no error, and the
    * sign follows Python's `<`. */
  lemma ScalarKeysAreAlwaysOrdered(key: Option<string>, key1: Value, key2: Value)
    requires (key1.Int? && key2.Int?) || (key1.Str? && key2.Str?)
    ensures BtDefaultCmp(key, key1, key2).Ok?
    ensures key.Some? ==> LtDfltCmp(key, key1, key2).Ok?
    ensures key.Some? ==> LtDfltCmp(key, key1, key2) == BtDefaultCmp(key, key1, key2)
  {
    PyLtIsStrictTotal(key1, key2);
  }

  /** The old hash-table comparator (`==`, then `>`) and the tree comparator
    * (`==`, then `<`) give the same answer on every pair of keys: the
    * explicit type check of the old one raises exactly where `<` would. */
  lemma HtDefaultCmpOldAgreesWithBt(key: Option<string>, key1: Value, entry2: MapEntry)
    ensures HtDefaultCmpOld(key1, entry2) == BtDefaultCmp(key, key1, entry2.key)
  {
    PyLtIsStrictTotal(key1, entry2.key);
  }

  lemma LtDfltCmpAntisymmetric(key: Option<string>, elm1: Value, elm2: Value)
    ensures LtDfltCmp(key, elm1, elm2).TypeErr? <==> LtDfltCmp(key, elm2, elm1).TypeErr?
    ensures LtDfltCmp(key, elm1, elm2).KeyErr? <==> LtDfltCmp(key, elm2, elm1).KeyErr?
    ensures LtDfltCmp(key, elm1, elm2).Ok? ==>
              LtDfltCmp(key, elm2, elm1) == Ok(-LtDfltCmp(key, elm1, elm2).sign)
  {
    if elm1.Dict? && elm2.Dict? {
      LtGtCmpAntisymmetric(DictGet(elm1.entries, DfltDictKey), DictGet(elm2.entries, DfltDictKey));
    } else {
      LtGtCmpAntisymmetric(elm1, elm2);
    }
  }

  /** Converting tuples to lists before comparing them changes nothing: the
    * newer hash-table comparator answers exactly as the list comparator does
    * on the key of the entry. */
  lemma HtDefaultCmpAgreesWithLtDflt(key: Option<string>, ekey1: Value, entry2: MapEntry)
    ensures HtDefaultCmp(key, ekey1, entry2) == LtDfltCmp(key, ekey1, entry2.key)
  {
    var ekey2 := entry2.key;
    if key.Some? && ekey1.Tuple? && ekey2.Tuple? {
      var l1, l2 := List(ekey1.items), List(ekey2.items);
      assert PyLt(l1, l2) == PyLt(ekey1, ekey2);
      assert PyLt(l2, l1) == PyLt(ekey2, ekey1);
      assert (l1 == l2) == (ekey1 == ekey2);
    }
  }

  /** As written, a `None` element never reaches the comparison chain: the
    * `isinstance` call raises first, even when it would otherwise fall through. */
  lemma LtDfltCmpRaisesOnNone()
    ensures LtDfltCmp(Some(DfltDictKey), Null, Null) == TypeErr
    ensures LtDfltCmpIntended(Some(DfltDictKey), Null, Null) == NoResult
  {
  }

  lemma HtDefaultCmpRaisesOnNone(v: Value)
    ensures HtDefaultCmp(Some(DfltDictKey), Null, MapEntry(Null, v)) == TypeErr
    ensures HtDefaultCmpIntended(Some(DfltDictKey), Null, MapEntry(Null, v)) == NoResult
  {
  }

  /** With `isinstance` answering as intended, `lt_dflt_cmp_function` raises
    * `TypeError` only for values of different types or values (or `"id"`
    * entries) that Python cannot order. */
  lemma LtDfltCmpIntendedRaisesOnlyWhenUnordered(key: Option<string>, elm1: Value, elm2: Value)
    ensures LtDfltCmpIntended(key, elm1, elm2).TypeErr? <==>
              || KindOf(elm1) != KindOf(elm2)
              || (key.Some? && elm1.Dict? && elm2.Dict? &&
                  !DictGet(elm1.entries, DfltDictKey).Null? && !DictGet(elm2.entries, DfltDictKey).Null? &&
                  PyLt(DictGet(elm1.entries, DfltDictKey), DictGet(elm2.entries, DfltDictKey)).None?)
              || (key.Some? && KindOf(elm1) == KindOf(elm2) && !elm1.Dict? && !elm1.Null? &&
                  PyLt(elm1, elm2).None?)
  {
  }

  /** The same for `ht_default_cmp_funcion`, where tuples are compared as lists. */
  lemma HtDefaultCmpIntendedRaisesOnlyWhenUnordered(key: Option<string>, ekey1: Value, entry2: MapEntry)
    ensures HtDefaultCmpIntended(key, ekey1, entry2).TypeErr? <==>
              || KindOf(ekey1) != KindOf(entry2.key)
              || (key.Some? && ekey1.Dict? && entry2.key.Dict? &&
                  !DictGet(ekey1.entries, DfltDictKey).Null? && !DictGet(entry2.key.entries, DfltDictKey).Null? &&
                  PyLt(DictGet(ekey1.entries, DfltDictKey), DictGet(entry2.key.entries, DfltDictKey)).None?)
              || (key.Some? && KindOf(ekey1) == KindOf(entry2.key) && !ekey1.Dict? && !ekey1.Null? &&
                  PyLt(ekey1, entry2.key).None?)
  {
  }
}
