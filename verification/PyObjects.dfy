/**
 The Python objects that travel through the codec, and the part of `dict` that matters to it:
 insertion order, and keys compared by Python equality, under which `1`, `1.0` and `True` are one key.
 */
module PyObjects {
  import opened Octets
  import opened PyFloats
  import Utf8

  /** `Other` is an object of any type the encoder refuses; `id` is its identity. */
  datatype PyObject =
    | PyNone
    | PyInt(n: int)
    | PyFloat(bits: Bits64)
    | PyBool(b: bool)
    | PyBytes(bytes: seq<Byte>)
    | PyStr(chars: seq<Utf8.CodePoint>)
    | PyList(items: seq<PyObject>)
    | PyDict(entries: seq<Entry>)
    | Other(id: nat)

  datatype Entry = Entry(key: PyObject, val: PyObject)

  predicate Hashable(v: PyObject) {
    !v.PyList? && !v.PyDict?
  }

  /** Two hashable objects are equal in Python iff their key classes are the same, NaN excepted. */
  datatype KeyClass =
    | NoneKey | NumberKey(r: real) | InfinityKey(sign: int) | NaNKey
    | BytesKey(bytes: seq<Byte>) | TextKey(chars: seq<Utf8.CodePoint>) | OtherKey(id: nat)

  function ClassOf(v: PyObject): KeyClass
    requires Hashable(v)
  {
    match v
    case PyNone => NoneKey
    case PyInt(n) => NumberKey(n as real)
    case PyBool(b) => NumberKey(if b then 1.0 else 0.0)
    case PyFloat(bits) =>
      if IsNaN(bits) then NaNKey
      else if IsFinite(bits) then NumberKey(Number(bits))
      else InfinityKey(Sign(bits))
    case PyBytes(b) => BytesKey(b)
    case PyStr(s) => TextKey(s)
    case Other(id) => OtherKey(id)
  }

  predicate SameKey(a: PyObject, b: PyObject) {
    Hashable(a) && Hashable(b) && ClassOf(a) == ClassOf(b) && !ClassOf(a).NaNKey?
  }

  /**
   Which keys are one key, by what the objects are: numbers by their value across `int`, `bool` and `float`,
   text by its characters, bytes by their bytes; `None` and every other object only itself; NaN never, lists
   and dicts never, and no two objects of different kinds.
   */
  lemma SameKeyIff(x: PyObject, y: PyObject)
    ensures SameKey(x, y) <==>
              match x
              case PyNone => y.PyNone?
              case PyStr(s) => y.PyStr? && y.chars == s
              case PyBytes(b) => y.PyBytes? && y.bytes == b
              case Other(id) => y.Other? && y.id == id
              case PyInt(n) =>
                || (y.PyInt? && y.n == n)
                || (y.PyBool? && n == (if y.b then 1 else 0))
                || (y.PyFloat? && IsFinite(y.bits) && Number(y.bits) == n as real)
              case PyBool(b) =>
                || (y.PyInt? && y.n == (if b then 1 else 0))
                || (y.PyBool? && y.b == b)
                || (y.PyFloat? && IsFinite(y.bits) && Number(y.bits) == (if b then 1.0 else 0.0))
              case PyFloat(f) =>
                if IsNaN(f) then false
                else if IsFinite(f) then
                  || (y.PyInt? && Number(f) == y.n as real)
                  || (y.PyBool? && Number(f) == (if y.b then 1.0 else 0.0))
                  || (y.PyFloat? && IsFinite(y.bits) && Number(y.bits) == Number(f))
                else
                  && y.PyFloat? && !IsFinite(y.bits) && !IsNaN(y.bits)
                  && (y.bits < 0x8000_0000_0000_0000 <==> f < 0x8000_0000_0000_0000)
              case PyList(_) => false
              case PyDict(_) => false
  {
    hide Number;
    if x.PyFloat? && y.PyFloat? {
      SignOfPattern(x.bits);
      SignOfPattern(y.bits);
    }
  }

  /** What can be a key at all. */
  lemma HashableIff(v: PyObject)
    ensures Hashable(v) <==>
              v.PyNone? || v.PyInt? || v.PyFloat? || v.PyBool? || v.PyBytes? || v.PyStr? || v.Other?
  {
  }

  type Entries = seq<Entry>

  /** `PyDict_SetItem`: an equal key keeps its place and its own key object and takes the new value. */
  function SetItem(es: Entries, k: PyObject, v: PyObject): (r: Entries)
    ensures |r| <= |es| + 1
    ensures |r| == |es| + 1 ==> r == es + [Entry(k, v)]
  {
    if es == [] then [Entry(k, v)]
    else if SameKey(es[0].key, k) then [Entry(es[0].key, v)] + es[1..]
    else [es[0]] + SetItem(es[1..], k, v)
  }

  predicate Absent(es: Entries, k: PyObject) {
    forall i :: 0 <= i < |es| ==> !SameKey(es[i].key, k)
  }

  /** What `dict` guarantees of itself. */
  predicate DistinctKeys(es: Entries) {
    && (forall i :: 0 <= i < |es| ==> Hashable(es[i].key))
    && (forall i, j :: 0 <= i < j < |es| ==> !SameKey(es[i].key, es[j].key))
  }

  lemma {:induction false} SetItemAppends(es: Entries, k: PyObject, v: PyObject)
    requires Absent(es, k)
    ensures SetItem(es, k, v) == es + [Entry(k, v)]
  {
    if es == [] {
    } else {
      forall i | 0 <= i < |es[1..]| ensures !SameKey(es[1..][i].key, k) {
        assert es[1..][i] == es[i + 1];
      }
      SetItemAppends(es[1..], k, v);
    }
  }

  lemma SameKeyJoins(a: PyObject, b: PyObject, k: PyObject)
    ensures SameKey(a, k) && SameKey(b, k) ==> SameKey(a, b)
  {
    hide ClassOf;
  }

  lemma DistinctTail(es: Entries)
    requires es != [] && DistinctKeys(es)
    ensures DistinctKeys(es[1..])
  {
    hide SameKey;
    forall i, j | 0 <= i < j < |es[1..]| ensures !SameKey(es[1..][i].key, es[1..][j].key) {
      assert es[1..][i] == es[i + 1] && es[1..][j] == es[j + 1];
    }
  }

  lemma {:induction false} SetItemAt(es: Entries, k: PyObject, v: PyObject, i: nat)
    requires DistinctKeys(es) && i < |es|
    ensures |SetItem(es, k, v)| >= |es|
    ensures SetItem(es, k, v)[i] == if SameKey(es[i].key, k) then Entry(es[i].key, v) else es[i]
  {
    hide SameKey;
    if SameKey(es[0].key, k) {
      if i > 0 {
        assert !SameKey(es[0].key, es[i].key);
        SameKeyJoins(es[0].key, es[i].key, k);
      }
    } else if |es| > 1 {
      DistinctTail(es);
      hide DistinctKeys;
      SetItemAt(es[1..], k, v, if i > 0 then i - 1 else 0);
    }
  }

  lemma AbsentSplits(es: Entries, k: PyObject)
    requires es != []
    ensures Absent(es, k) <==> !SameKey(es[0].key, k) && Absent(es[1..], k)
  {
    hide SameKey;
    if Absent(es[1..], k) {
      forall i | 0 < i < |es| ensures !SameKey(es[i].key, k) {
        assert es[1..][i - 1] == es[i];
      }
    }
  }

  lemma {:induction false} SetItemGrowsIff(es: Entries, k: PyObject, v: PyObject)
    ensures |SetItem(es, k, v)| == |es| + 1 <==> Absent(es, k)
  {
    hide SameKey;
    if es != [] {
      AbsentSplits(es, k);
      hide Absent;
      SetItemGrowsIff(es[1..], k, v);
    }
  }

  /** Setting an item changes no key and no other entry; it appends exactly when the key is absent. */
  lemma SetItemEntries(es: Entries, k: PyObject, v: PyObject)
    requires DistinctKeys(es) && Hashable(k)
    ensures |SetItem(es, k, v)| >= |es|
    ensures forall i :: 0 <= i < |es| ==>
                          SetItem(es, k, v)[i] == if SameKey(es[i].key, k) then Entry(es[i].key, v) else es[i]
    ensures |SetItem(es, k, v)| == |es| + 1 <==> Absent(es, k)
  {
    SetItemGrowsIff(es, k, v);
    hide SameKey, DistinctKeys, Absent;
    if es != [] {
      SetItemAt(es, k, v, 0);
    }
    forall i | 0 <= i < |es|
      ensures SetItem(es, k, v)[i] == if SameKey(es[i].key, k) then Entry(es[i].key, v) else es[i]
    {
      SetItemAt(es, k, v, i);
    }
  }

  /** Setting an item keeps the keys hashable and pairwise different. */
  lemma {:induction false} SetItemKeepsKeys(es: Entries, k: PyObject, v: PyObject)
    requires DistinctKeys(es) && Hashable(k)
    ensures DistinctKeys(SetItem(es, k, v))
  {
    SetItemEntries(es, k, v);
    var r := SetItem(es, k, v);
    forall i, j | 0 <= i < j < |r| ensures !SameKey(r[i].key, r[j].key) {
      if j == |es| {
        assert !SameKey(es[i].key, k);
      }
    }
  }

  /** Builds a `dict` from alternating keys and values, or fails on the first unhashable key. */
  function SetItems(es: Entries, flat: seq<PyObject>): (r: Option<Entries>)
    requires |flat| % 2 == 0
    ensures r.Some? ==> |r.value| <= |es| + |flat| / 2
    decreases |flat|
  {
    if flat == [] then Some(es)
    else if !Hashable(flat[0]) then None
    else SetItems(SetItem(es, flat[0], flat[1]), flat[2..])
  }

  function Flatten(es: Entries): (r: seq<PyObject>)
    ensures |r| == 2 * |es|
  {
    if es == [] then [] else [es[0].key, es[0].val] + Flatten(es[1..])
  }

  /** A `dict` is rebuilt, in order, from its own keys and values. */
  lemma {:induction false} SetItemsOfFlatten(done: Entries, es: Entries)
    requires DistinctKeys(done + es)
    ensures SetItems(done, Flatten(es)) == Some(done + es)
    decreases |es|
  {
    if es == [] {
      assert done + es == done;
    } else {
      var all := done + es;
      assert all[|done|] == es[0];
      forall i | 0 <= i < |done| ensures !SameKey(done[i].key, es[0].key) {
        assert all[i] == done[i];
      }
      SetItemAppends(done, es[0].key, es[0].val);
      assert done + [es[0]] + es[1..] == all;
      assert Flatten(es)[2..] == Flatten(es[1..]);
      SetItemsOfFlatten(done + [es[0]], es[1..]);
    }
  }

  lemma {:induction false} SetItemsKeepsKeys(es: Entries, flat: seq<PyObject>)
    requires DistinctKeys(es) && |flat| % 2 == 0 && SetItems(es, flat).Some?
    ensures DistinctKeys(SetItems(es, flat).value)
    decreases |flat|
  {
    if flat == [] {
    } else {
      SetItemKeepsKeys(es, flat[0], flat[1]);
      SetItemsKeepsKeys(SetItem(es, flat[0], flat[1]), flat[2..]);
    }
  }

  /** When no key was met twice, the entries are exactly the keys and values that went in. */
  lemma {:induction false} SetItemsWithoutCollision(es: Entries, flat: seq<PyObject>)
    requires |flat| % 2 == 0 && SetItems(es, flat).Some?
    requires |SetItems(es, flat).value| == |es| + |flat| / 2
    ensures Flatten(SetItems(es, flat).value) == Flatten(es) + flat
    decreases |flat|
  {
    if flat == [] {
      assert Flatten(es) + flat == Flatten(es);
    } else {
      var es' := SetItem(es, flat[0], flat[1]);
      SetItemsWithoutCollision(es', flat[2..]);
      FlattenAppends(es, [Entry(flat[0], flat[1])]);
      assert Flatten([Entry(flat[0], flat[1])]) == [flat[0], flat[1]];
      assert flat == [flat[0], flat[1]] + flat[2..];
    }
  }

  lemma {:induction false} FlattenAppends(a: Entries, b: Entries)
    ensures Flatten(a + b) == Flatten(a) + Flatten(b)
  {
    if a == [] {
      assert a + b == b;
    } else {
      assert (a + b)[1..] == a[1..] + b;
      FlattenAppends(a[1..], b);
    }
  }

  // ------------------------------------------------------------------ shape

  function Max(a: nat, b: nat): nat {
    if a > b then a else b
  }

  /** Nesting depth: scalars and empty containers count 1. */
  function Depth(v: PyObject): (r: nat)
    ensures r >= 1
    decreases v, 1
  {
    match v
    case PyList(items) => 1 + DepthOfAll(items)
    case PyDict(entries) => 1 + DepthOfEntries(entries)
    case _ => 1
  }

  function DepthOfAll(vs: seq<PyObject>): nat
    decreases vs, 0
  {
    if vs == [] then 0 else Max(Depth(vs[0]), DepthOfAll(vs[1..]))
  }

  function DepthOfEntries(es: Entries): nat
    decreases es, 0
  {
    if es == [] then 0
    else
      assert es[0].key < es[0] && es[0].val < es[0];
      Max(Depth(es[0].key), Max(Depth(es[0].val), DepthOfEntries(es[1..])))
  }

  /**
   What every Python object satisfies: the keys of a dict are hashable and pairwise different, and
   no size exceeds PY_SSIZE_T_MAX (for a `str`, the size of its UTF-8 form).
   */
  predicate IsObject(v: PyObject)
    decreases v, 1
  {
    match v
    case PyBytes(b) => |b| <= SSIZE_MAX
    case PyStr(s) => |Utf8.Encode(s)| <= SSIZE_MAX
    case PyList(items) => |items| <= SSIZE_MAX && AreObjects(items)
    case PyDict(entries) => |entries| <= SSIZE_MAX && DistinctKeys(entries) && AreEntries(entries)
    case _ => true
  }

  predicate AreObjects(vs: seq<PyObject>)
    decreases vs, 0
  {
    vs == [] || (IsObject(vs[0]) && AreObjects(vs[1..]))
  }

  predicate AreEntries(es: Entries)
    decreases es, 0
  {
    es == [] ||
    (assert es[0].key < es[0] && es[0].val < es[0];
     IsObject(es[0].key) && IsObject(es[0].val) && AreEntries(es[1..]))
  }
}
