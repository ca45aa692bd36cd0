/**
 A Python `dict` from `str` to `str`, kept as its items in insertion order: assigning to a key that is
 present keeps its place and replaces its value, assigning to a new key appends.
 */
module StringDict {
  import opened Octets

  datatype Item = Item(key: string, val: string)
  type Dict = seq<Item>

  function Set(m: Dict, key: string, val: string): (r: Dict)
    ensures Has(r, key)
    ensures r != []
  {
    if m == [] then [Item(key, val)]
    else if m[0].key == key then [Item(key, val)] + m[1..]
    else [m[0]] + Set(m[1..], key, val)
  }

  /** Assigns the items in turn. */
  function SetAll(m: Dict, items: seq<Item>): Dict
    decreases |items|
  {
    if items == [] then m else SetAll(Set(m, items[0].key, items[0].val), items[1..])
  }

  predicate Has(m: Dict, key: string) {
    m != [] && (m[0].key == key || Has(m[1..], key))
  }

  function Get(m: Dict, key: string): Option<string> {
    if m == [] then None else if m[0].key == key then Some(m[0].val) else Get(m[1..], key)
  }

  /** The value of the last item with this key, for a list of items whose keys may repeat. */
  function LastValue(items: seq<Item>, key: string): (r: Option<string>)
    ensures r.Some? <==> Has(items, key)
  {
    if items == [] then None
    else
      var later := LastValue(items[1..], key);
      if later.Some? then later else if items[0].key == key then Some(items[0].val) else None
  }

  /** What `dict` guarantees of itself: no key occurs twice. */
  predicate Unique(m: Dict) {
    m == [] || (!Has(m[1..], m[0].key) && Unique(m[1..]))
  }

  function Keys(m: Dict): seq<string> {
    if m == [] then [] else [m[0].key] + Keys(m[1..])
  }

  /** The keys of `items` that `m` does not have, each once, in order of first appearance. */
  function NewKeys(m: Dict, items: seq<Item>): seq<string>
    decreases |items|
  {
    if items == [] then []
    else if Has(m, items[0].key) then NewKeys(m, items[1..])
    else [items[0].key] + NewKeys(m + [items[0]], items[1..])
  }

  lemma {:induction false} HasOfConcat(m: Dict, n: Dict, key: string)
    ensures Has(m + n, key) <==> Has(m, key) || Has(n, key)
  {
    if m == [] {
      assert m + n == n;
    } else {
      assert (m + n)[1..] == m[1..] + n;
      HasOfConcat(m[1..], n, key);
    }
  }

  // ---- one assignment ----

  lemma {:induction false} GetAfterSet(m: Dict, key: string, val: string, other: string)
    ensures Get(Set(m, key, val), other) == if other == key then Some(val) else Get(m, other)
    ensures Has(Set(m, key, val), other) <==> other == key || Has(m, other)
  {
    if m == [] {
      assert Set(m, key, val)[1..] == [];
    } else if m[0].key == key {
      assert Set(m, key, val)[1..] == m[1..];
    } else {
      assert Set(m, key, val)[1..] == Set(m[1..], key, val);
      GetAfterSet(m[1..], key, val, other);
    }
  }

  lemma {:induction false} SetKeepsUnique(m: Dict, key: string, val: string)
    requires Unique(m)
    ensures Unique(Set(m, key, val))
  {
    if m == [] {
    } else if m[0].key == key {
      assert Set(m, key, val)[1..] == m[1..];
    } else {
      assert Set(m, key, val)[1..] == Set(m[1..], key, val);
      SetKeepsUnique(m[1..], key, val);
      GetAfterSet(m[1..], key, val, m[0].key);
    }
  }

  lemma {:induction false} SetAppends(m: Dict, key: string, val: string)
    requires !Has(m, key)
    ensures Set(m, key, val) == m + [Item(key, val)]
  {
    if m == [] {
    } else {
      SetAppends(m[1..], key, val);
    }
  }

  lemma {:induction false} KeysAfterSet(m: Dict, key: string, val: string)
    ensures Keys(Set(m, key, val)) == if Has(m, key) then Keys(m) else Keys(m) + [key]
  {
    if m == [] {
      assert Set(m, key, val)[1..] == [];
    } else if m[0].key == key {
      assert Set(m, key, val)[1..] == m[1..];
    } else {
      assert Set(m, key, val)[1..] == Set(m[1..], key, val);
      KeysAfterSet(m[1..], key, val);
    }
  }

  lemma {:induction false} SetOverwrites(m: Dict, key: string, first: string, second: string)
    ensures Set(Set(m, key, first), key, second) == Set(m, key, second)
  {
    if m == [] {
      assert Set(m, key, first)[1..] == [];
    } else if m[0].key == key {
      assert Set(m, key, first)[1..] == m[1..];
    } else {
      assert Set(m, key, first)[1..] == Set(m[1..], key, first);
      SetOverwrites(m[1..], key, first, second);
    }
  }

  /** Assignments to two keys commute when one of them only replaces a value. */
  lemma {:induction false} SetsCommute(m: Dict, present: string, val: string, other: string, otherVal: string)
    requires Has(m, present) && present != other
    ensures Set(Set(m, other, otherVal), present, val) == Set(Set(m, present, val), other, otherVal)
  {
    var a := Set(m, other, otherVal);
    var b := Set(m, present, val);
    if m[0].key == present {
      assert a[0] == m[0] && a[1..] == Set(m[1..], other, otherVal);
      assert b[0].key == present && b[1..] == m[1..];
    } else if m[0].key == other {
      assert a[0].key == other && a[1..] == m[1..];
      assert b[0] == m[0] && b[1..] == Set(m[1..], present, val);
    } else {
      assert a[0] == m[0] && a[1..] == Set(m[1..], other, otherVal);
      assert b[0] == m[0] && b[1..] == Set(m[1..], present, val);
      SetsCommute(m[1..], present, val, other, otherVal);
    }
  }

  // ---- many assignments ----

  /** Lookups after many assignments: the last value assigned wins, untouched keys keep theirs. */
  lemma {:induction false} GetAfterSetAll(m: Dict, items: seq<Item>, key: string)
    ensures Get(SetAll(m, items), key) == if Has(items, key) then LastValue(items, key) else Get(m, key)
    decreases |items|
  {
    if items == [] {
    } else {
      var head := items[0];
      GetAfterSet(m, head.key, head.val, key);
      GetAfterSetAll(Set(m, head.key, head.val), items[1..], key);
    }
  }

  lemma {:induction false} SetAllKeepsUnique(m: Dict, items: seq<Item>)
    requires Unique(m)
    ensures Unique(SetAll(m, items))
    decreases |items|
  {
    if items == [] {
    } else {
      SetKeepsUnique(m, items[0].key, items[0].val);
      SetAllKeepsUnique(Set(m, items[0].key, items[0].val), items[1..]);
    }
  }

  /** New keys depend on which keys are present, not on their values or order. */
  lemma {:induction false} NewKeysCongruent(m: Dict, n: Dict, items: seq<Item>)
    requires forall key :: Has(m, key) <==> Has(n, key)
    ensures NewKeys(m, items) == NewKeys(n, items)
    decreases |items|
  {
    if items == [] {
    } else if Has(m, items[0].key) {
      NewKeysCongruent(m, n, items[1..]);
    } else {
      forall key ensures Has(m + [items[0]], key) <==> Has(n + [items[0]], key) {
        HasOfConcat(m, [items[0]], key);
        HasOfConcat(n, [items[0]], key);
      }
      NewKeysCongruent(m + [items[0]], n + [items[0]], items[1..]);
    }
  }

  /** Keys stand in order of first appearance: the old ones first, then the new ones. */
  lemma {:induction false} KeysAfterSetAll(m: Dict, items: seq<Item>)
    ensures Keys(SetAll(m, items)) == Keys(m) + NewKeys(m, items)
    decreases |items|
  {
    if items == [] {
    } else {
      var head, tail := items[0], items[1..];
      var next := Set(m, head.key, head.val);
      KeysAfterSet(m, head.key, head.val);
      KeysAfterSetAll(next, tail);
      if Has(m, head.key) {
        forall key ensures Has(next, key) <==> Has(m, key) {
          GetAfterSet(m, head.key, head.val, key);
        }
        NewKeysCongruent(next, m, tail);
      } else {
        SetAppends(m, head.key, head.val);
        assert NewKeys(m, items) == [head.key] + NewKeys(next, tail);
        hide *;
        AppendAssociates(Keys(m), [head.key], NewKeys(next, tail));
      }
    }
  }

  lemma {:induction false} SetAllThenSet(m: Dict, items: seq<Item>, key: string, first: string, second: string)
    requires !Has(items, key)
    ensures SetAll(Set(m, key, second), items) == Set(SetAll(Set(m, key, first), items), key, second)
    decreases |items|
  {
    if items == [] {
      SetOverwrites(m, key, first, second);
    } else {
      var head := items[0];
      var a := Set(m, key, first);
      var b := Set(m, key, second);
      SetOverwrites(m, key, first, second);
      SetsCommute(a, key, second, head.key, head.val);
      var a' := Set(a, head.key, head.val);
      GetAfterSet(a, head.key, head.val, key);
      PresentSetAll(a', items[1..], key, second);
    }
  }

  /** Replacing the value of a present key commutes with assignments to other keys. */
  lemma {:induction false} PresentSetAll(m: Dict, items: seq<Item>, key: string, val: string)
    requires Has(m, key) && !Has(items, key)
    ensures SetAll(Set(m, key, val), items) == Set(SetAll(m, items), key, val)
    decreases |items|
  {
    if items == [] {
    } else {
      var head := items[0];
      SetsCommute(m, key, val, head.key, head.val);
      GetAfterSet(m, head.key, head.val, key);
      PresentSetAll(Set(m, head.key, head.val), items[1..], key, val);
    }
  }

  /** Assigning once more at the end, or inside the dictionary whose items are assigned, is the same. */
  lemma {:induction false} SetAllOfSet(m: Dict, n: Dict, key: string, val: string)
    requires Unique(n)
    ensures SetAll(m, Set(n, key, val)) == Set(SetAll(m, n), key, val)
    decreases |n|
  {
    if n == [] {
      assert Set(n, key, val)[1..] == [];
    } else if n[0].key == key {
      assert Set(n, key, val)[1..] == n[1..];
      SetAllThenSet(m, n[1..], key, n[0].val, val);
    } else {
      var head := n[0];
      assert Set(n, key, val)[1..] == Set(n[1..], key, val);
      SetAllOfSet(Set(m, head.key, head.val), n[1..], key, val);
    }
  }

  /** Merging dictionaries is associative, item order included. */
  lemma {:induction false} SetAllAssociates(m: Dict, n: Dict, items: seq<Item>)
    requires Unique(n)
    ensures SetAll(m, SetAll(n, items)) == SetAll(SetAll(m, n), items)
    decreases |items|
  {
    if items == [] {
    } else {
      var head := items[0];
      SetKeepsUnique(n, head.key, head.val);
      SetAllAssociates(m, Set(n, head.key, head.val), items[1..]);
      SetAllOfSet(m, n, head.key, head.val);
    }
  }

  /** Assigning unique items to a dictionary that has none of their keys appends them. */
  lemma {:induction false} SetAllAppends(m: Dict, items: seq<Item>)
    requires Unique(items) && forall key :: Has(items, key) ==> !Has(m, key)
    ensures SetAll(m, items) == m + items
    decreases |items|
  {
    if items == [] {
    } else {
      var head := items[0];
      assert Has(items, head.key);
      SetAppends(m, head.key, head.val);
      forall key | Has(items[1..], key) ensures !Has(m + [head], key) {
        assert Has(items, key);
        HasOfConcat(m, [head], key);
      }
      SetAllAppends(m + [head], items[1..]);
      assert m + [head] + items[1..] == m + items;
    }
  }

  lemma {:induction false} GetOfSetIsNoOp(m: Dict, key: string)
    requires Get(m, key).Some?
    ensures Set(m, key, Get(m, key).value) == m
  {
    if m[0].key == key {
      assert m == [Item(key, m[0].val)] + m[1..];
    } else {
      GetOfSetIsNoOp(m[1..], key);
    }
  }

  /** Assigning what is already there changes nothing. */
  lemma {:induction false} SetAllIsNoOp(m: Dict, items: seq<Item>)
    requires Unique(items)
    requires forall key :: Has(items, key) ==> Get(m, key) == Get(items, key)
    ensures SetAll(m, items) == m
    decreases |items|
  {
    if items == [] {
    } else {
      var head := items[0];
      assert Has(items, head.key);
      GetOfSetIsNoOp(m, head.key);
      forall key | Has(items[1..], key) ensures Get(m, key) == Get(items[1..], key) {
        assert Has(items, key);
      }
      SetAllIsNoOp(m, items[1..]);
    }
  }
}
