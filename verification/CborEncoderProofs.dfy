/**
 The encoder against the reference grammar. A write succeeds exactly on the supported objects, appends
 the spelling of one item whose counts match what follows, and that item means the object again unless
 the object holds the one integer that a 32-bit `long` build writes wrongly.
 */
module CborEncoderProofs {
  import opened Octets
  import opened PyObjects
  import opened CborElement
  import opened CborWire
  import opened CborWellFormed
  import opened CborEncoder
  import Utf8

  /** What `write_data_item` supports: 64-bit integers, text with a UTF-8 form, and containers of these. */
  predicate Encodable(v: PyObject)
    decreases v, 1
  {
    match v
    case PyInt(n) => -TWO_TO_THE_64 <= n < TWO_TO_THE_64
    case PyStr(s) => Utf8.AllScalar(s)
    case PyList(items) => AllEncodable(items)
    case PyDict(entries) => EntriesEncodable(entries)
    case Other(_) => false
    case _ => true
  }

  predicate AllEncodable(vs: seq<PyObject>)
    decreases vs, 0
  {
    vs == [] || (Encodable(vs[0]) && AllEncodable(vs[1..]))
  }

  predicate EntriesEncodable(es: Entries)
    decreases es, 0
  {
    es == [] ||
    (assert es[0].key < es[0] && es[0].val < es[0];
     Encodable(es[0].key) && Encodable(es[0].val) && EntriesEncodable(es[1..]))
  }

  /** No integer anywhere in the object is misencoded by this build. */
  predicate Faithful(v: PyObject, l: LongWidth)
    decreases v, 1
  {
    match v
    case PyInt(n) => !Misencoded(n, l)
    case PyList(items) => AllFaithful(items, l)
    case PyDict(entries) => EntriesFaithful(entries, l)
    case _ => true
  }

  predicate AllFaithful(vs: seq<PyObject>, l: LongWidth)
    decreases vs, 0
  {
    vs == [] || (Faithful(vs[0], l) && AllFaithful(vs[1..], l))
  }

  predicate EntriesFaithful(es: Entries, l: LongWidth)
    decreases es, 0
  {
    es == [] ||
    (assert es[0].key < es[0] && es[0].val < es[0];
     Faithful(es[0].key, l) && Faithful(es[0].val, l) && EntriesFaithful(es[1..], l))
  }

  // -------------------------------------------------- the item that is written

  function Spell(v: PyObject, l: LongWidth): (x: Wire)
    requires IsObject(v) && Encodable(v)
    decreases v, 1
  {
    match v
    case PyNone => Scalar(7, Embedded, 22)
    case PyInt(n) =>
      PyLongIsWriteInt(n, l);
      var m := PyLongNumber(n, l).value;
      Scalar(NumberMajor(m), Shortest(m.arg), m.arg)
    case PyFloat(bits) => Scalar(7, Eight, bits)
    case PyBool(b) => Scalar(7, Embedded, if b then 21 else 20)
    case PyBytes(b) => Text(false, Chunk(Shortest(|b|), b))
    case PyStr(s) => Text(true, Chunk(Shortest(|Utf8.Encode(s)|), Utf8.Encode(s)))
    case PyList(items) => Container(false, Counted(Shortest(|items|)), SpellItems(items, l))
    case PyDict(entries) => Container(true, Counted(Shortest(|entries|)), SpellEntries(entries, l))
  }

  function SpellItems(vs: seq<PyObject>, l: LongWidth): (xs: seq<Wire>)
    requires AreObjects(vs) && AllEncodable(vs)
    ensures |xs| == |vs|
    decreases vs, 0
  {
    if vs == [] then [] else [Spell(vs[0], l)] + SpellItems(vs[1..], l)
  }

  function SpellEntries(es: Entries, l: LongWidth): (xs: seq<Wire>)
    requires AreEntries(es) && EntriesEncodable(es)
    ensures |xs| == 2 * |es|
    decreases es, 0
  {
    if es == [] then []
    else
      assert es[0].key < es[0] && es[0].val < es[0];
      [Spell(es[0].key, l)] + ([Spell(es[0].val, l)] + SpellEntries(es[1..], l))
  }

  // ---------------------------------------------------------------- framing

  /** A successful write is exactly one well-formed item; a write fails exactly on unsupported objects. */
  lemma {:induction false} WriteSpells(v: PyObject, l: LongWidth)
    requires IsObject(v)
    ensures Write(v, l).error.None? <==> Encodable(v)
    ensures Encodable(v) ==> WellSpelled(Spell(v, l)) && Write(v, l).bytes == Spelling(Spell(v, l))
    decreases v, 1
  {
    hide HeadBytes, WriteAll, WriteEntries, SpellAll, SpellItems, SpellEntries;
    hide Shortest, AllEncodable, EntriesEncodable;
    if v.PyList? {
      hide AllWellSpelled;
      WriteAllSpells(v.items, l);
    } else if v.PyDict? {
      hide AllWellSpelled;
      WriteEntriesSpells(v.entries, l);
    } else {
      hide *;
      ScalarSpells(v, l);
    }
  }

  lemma ScalarSpells(v: PyObject, l: LongWidth)
    requires IsObject(v) && !v.PyList? && !v.PyDict?
    ensures Write(v, l).error.None? <==> Encodable(v)
    ensures Encodable(v) ==> WellSpelled(Spell(v, l)) && Write(v, l).bytes == Spelling(Spell(v, l))
  {
    hide HeadBytes, PyLongNumber, WriteIntNumber, Shortest;
    if v.PyInt? {
      PyLongIsWriteInt(v.n, l);
    }
  }

  lemma {:induction false} WriteAllSpells(vs: seq<PyObject>, l: LongWidth)
    requires AreObjects(vs)
    ensures WriteAll(vs, l).error.None? <==> AllEncodable(vs)
    ensures AllEncodable(vs) ==>
              AllWellSpelled(SpellItems(vs, l)) && WriteAll(vs, l).bytes == SpellAll(SpellItems(vs, l))
    decreases vs, 0
  {
    hide Write, Encodable, IsObject, Spell, Spelling, WellSpelled;
    if vs != [] {
      WriteSpells(vs[0], l);
      WriteAllSpells(vs[1..], l);
      if AllEncodable(vs) {
        SpellAllJoins(Spell(vs[0], l), SpellItems(vs[1..], l), []);
        NothingBehind(Spell(vs[0], l), SpellItems(vs[1..], l));
      }
    }
  }

  lemma NothingBehind(x: Wire, xs: seq<Wire>)
    requires WellSpelled(x) && AllWellSpelled(xs)
    ensures AllWellSpelled([x] + xs) && SpellAll([x] + xs) == Spelling(x) + SpellAll(xs)
  {
    assert ([x] + xs)[1..] == xs;
  }

  lemma {:induction false} WriteEntriesSpells(es: Entries, l: LongWidth)
    requires AreEntries(es)
    ensures WriteEntries(es, l).error.None? <==> EntriesEncodable(es)
    ensures EntriesEncodable(es) ==>
              AllWellSpelled(SpellEntries(es, l)) && WriteEntries(es, l).bytes == SpellAll(SpellEntries(es, l))
    decreases es, 0
  {
    hide Write, Encodable, IsObject, Spell, Spelling, WellSpelled;
    if es != [] {
      assert es[0].key < es[0] && es[0].val < es[0];
      WriteSpells(es[0].key, l);
      WriteSpells(es[0].val, l);
      WriteEntriesSpells(es[1..], l);
      if EntriesEncodable(es) {
        var xs := SpellEntries(es[1..], l);
        NothingBehind(Spell(es[0].val, l), xs);
        NothingBehind(Spell(es[0].key, l), [Spell(es[0].val, l)] + xs);
      }
    }
  }

  /**
   What a failing write leaves behind is never a whole item: a reader of the stream runs out of input
   inside the broken item instead of taking it for a shorter one.
   */
  lemma {:induction false} FailedWriteIsIncomplete(v: PyObject, l: LongWidth, breakable: bool)
    requires IsObject(v) && Write(v, l).error.Some?
    ensures WellFormed(Write(v, l).bytes, breakable) == Malformed
    decreases v, 1
  {
    match v
    case PyList(items) =>
      AfterHead(4, Shortest(|items|), |items|, WriteAll(items, l).bytes, breakable);
      FailedItemsAreIncomplete(4, |items|, items, l);
    case PyDict(entries) =>
      AfterHead(5, Shortest(|entries|), |entries|, WriteEntries(entries, l).bytes, breakable);
      FailedEntriesAreIncomplete(5, 2 * |entries|, entries, l);
    case _ =>
  }

  /** After one whole item and `rest`, the remaining count decides. */
  lemma RepeatAfter(mt: Major, n: nat, v: PyObject, l: LongWidth, rest: seq<Byte>)
    requires n > 0 && IsObject(v) && Write(v, l).error.None?
    ensures Repeat(mt, n, Write(v, l).bytes + rest) == Repeat(mt, n - 1, rest)
  {
    hide Write, IsObject, Spell, Spelling, WellFormed, WellSpelled, MajorOf;
    WriteSpells(v, l);
    SpellingIsWellFormed(Spell(v, l), rest, false);
  }

  lemma {:induction false} FailedItemsAreIncomplete(mt: Major, n: nat, vs: seq<PyObject>, l: LongWidth)
    requires AreObjects(vs) && WriteAll(vs, l).error.Some? && n >= |vs|
    ensures Repeat(mt, n, WriteAll(vs, l).bytes) == Malformed
    decreases vs, 0
  {
    hide Write, IsObject, WellFormed;
    if Write(vs[0], l).error.Some? {
      FailedWriteIsIncomplete(vs[0], l, false);
    } else {
      RepeatAfter(mt, n, vs[0], l, WriteAll(vs[1..], l).bytes);
      FailedItemsAreIncomplete(mt, n - 1, vs[1..], l);
    }
  }

  lemma {:induction false} FailedEntriesAreIncomplete(mt: Major, n: nat, es: Entries, l: LongWidth)
    requires AreEntries(es) && WriteEntries(es, l).error.Some? && n >= 2 * |es|
    ensures Repeat(mt, n, WriteEntries(es, l).bytes) == Malformed
    decreases es, 0
  {
    hide Write, IsObject, WellFormed;
    assert es[0].key < es[0] && es[0].val < es[0];
    var key, val, rest := Write(es[0].key, l), Write(es[0].val, l), WriteEntries(es[1..], l);
    if key.error.Some? {
      FailedWriteIsIncomplete(es[0].key, l, false);
    } else {
      RepeatAfter(mt, n, es[0].key, l, Then(val, rest).bytes);
      if val.error.Some? {
        FailedWriteIsIncomplete(es[0].val, l, false);
        assert Repeat(mt, n - 1, val.bytes) == Malformed;
      } else {
        RepeatAfter(mt, n - 1, es[0].val, l, rest.bytes);
        FailedEntriesAreIncomplete(mt, n - 2, es[1..], l);
      }
    }
  }

  // ---------------------------------------------------------------- meaning

  /**
   The written item always has a meaning, nests as deep as the object, and means the object itself if
   and only if no integer in it is misencoded.
   */
  lemma {:induction false} SpellMeans(v: PyObject, l: LongWidth)
    requires IsObject(v) && Encodable(v)
    ensures WellSpelled(Spell(v, l)) && Nesting(Spell(v, l)) == Depth(v)
    ensures Meaning(Spell(v, l)).Some?
    ensures Meaning(Spell(v, l)).value == v <==> Faithful(v, l)
    ensures Hashable(v) ==> Hashable(Meaning(Spell(v, l)).value)
    decreases v, 1
  {
    WriteSpells(v, l);
    if v.PyList? {
      hide *;
      ListMeans(v.items, l);
      assert v == PyList(v.items);
    } else if v.PyDict? {
      hide Meaning;
      DictMeans(v.entries, l);
    } else {
      hide Meaning, Nesting, Depth;
      ScalarMeans(v, l);
    }
  }

  lemma ScalarMeans(v: PyObject, l: LongWidth)
    requires IsObject(v) && Encodable(v) && Hashable(v) && WellSpelled(Spell(v, l))
    ensures Nesting(Spell(v, l)) == Depth(v)
    ensures Meaning(Spell(v, l)).Some? && Hashable(Meaning(Spell(v, l)).value)
    ensures Meaning(Spell(v, l)).value == v <==> Faithful(v, l)
  {
    hide PyLongNumber, WriteIntNumber, Utf8.Decode, Utf8.Encode, Shortest;
    match v
    case PyInt(n) => PyLongIsWriteInt(n, l);
    case PyStr(s) => Utf8.DecodeOfEncode(s);
    case _ =>
  }

  lemma {:induction false} ItemsMean(vs: seq<PyObject>, l: LongWidth)
    requires AreObjects(vs) && AllEncodable(vs)
    ensures AllWellSpelled(SpellItems(vs, l)) && NestingOfAll(SpellItems(vs, l)) == DepthOfAll(vs)
    ensures MeaningOfAll(SpellItems(vs, l)).Some?
    ensures MeaningOfAll(SpellItems(vs, l)).value == vs <==> AllFaithful(vs, l)
    decreases vs, 0
  {
    hide IsObject, Encodable, Spell, Meaning, Nesting, WellSpelled, Depth, Faithful;
    if vs != [] {
      SpellMeans(vs[0], l);
      ItemsMean(vs[1..], l);
      var x, xs := Spell(vs[0], l), SpellItems(vs[1..], l);
      assert ([x] + xs)[1..] == xs;
      var m, ms := Meaning(x).value, MeaningOfAll(xs).value;
      assert ([m] + ms)[0] == m && ([m] + ms)[1..] == ms;
      assert vs == [vs[0]] + vs[1..];
    }
  }

  lemma {:induction false} ListMeans(vs: seq<PyObject>, l: LongWidth)
    requires IsObject(PyList(vs)) && Encodable(PyList(vs)) && WellSpelled(Spell(PyList(vs), l))
    ensures var x := Spell(PyList(vs), l);
            && Nesting(x) == Depth(PyList(vs)) && Meaning(x).Some? && Meaning(x).value.PyList?
            && (Meaning(x).value == PyList(vs) <==> Faithful(PyList(vs), l))
    ensures !Hashable(PyList(vs))
    decreases vs, 1
  {
    hide MeaningOfAll, NestingOfAll, DepthOfAll, AllFaithful, SpellItems, AllWellSpelled;
    ItemsMean(vs, l);
  }

  lemma {:induction false} DictMeans(es: Entries, l: LongWidth)
    requires IsObject(PyDict(es)) && Encodable(PyDict(es)) && WellSpelled(Spell(PyDict(es), l))
    ensures NestingOfAll(SpellEntries(es, l)) == DepthOfEntries(es)
    ensures Meaning(Spell(PyDict(es), l)).Some? && Meaning(Spell(PyDict(es), l)).value.PyDict?
    ensures Meaning(Spell(PyDict(es), l)).value == PyDict(es) <==> EntriesFaithful(es, l)
    decreases es, 1
  {
    hide SpellEntries, MeaningOfAll, SetItem, EntriesFaithful, SameKey;
    EntriesMean(es, l);
    var flat := MeaningOfAll(SpellEntries(es, l)).value;
    AllHashable([], flat);
    var built := SetItems([], flat).value;
    if EntriesFaithful(es, l) {
      assert [] + es == es;
      SetItemsOfFlatten([], es);
    }
    if built == es {
      SetItemsWithoutCollision([], flat);
      assert Flatten([]) + flat == flat;
    }
  }

  predicate KeysHashable(flat: seq<PyObject>) {
    forall i :: 0 <= i < |flat| && i % 2 == 0 ==> Hashable(flat[i])
  }

  lemma {:induction false} AllHashable(done: Entries, flat: seq<PyObject>)
    requires |flat| % 2 == 0 && KeysHashable(flat)
    ensures SetItems(done, flat).Some?
    decreases |flat|
  {
    if flat != [] {
      assert forall i :: 0 <= i < |flat[2..]| ==> flat[2..][i] == flat[i + 2];
      AllHashable(SetItem(done, flat[0], flat[1]), flat[2..]);
    }
  }

  lemma {:induction false} EntriesMean(es: Entries, l: LongWidth)
    requires AreEntries(es) && EntriesEncodable(es)
    requires forall i :: 0 <= i < |es| ==> Hashable(es[i].key)
    ensures AllWellSpelled(SpellEntries(es, l)) && NestingOfAll(SpellEntries(es, l)) == DepthOfEntries(es)
    ensures MeaningOfAll(SpellEntries(es, l)).Some?
    ensures var flat := MeaningOfAll(SpellEntries(es, l)).value;
            KeysHashable(flat) && (flat == Flatten(es) <==> EntriesFaithful(es, l))
    decreases es, 0
  {
    hide IsObject, Encodable, Spell, Meaning, Nesting, WellSpelled, Depth, Faithful;
    if es != [] {
      hide KeysHashable, Flatten, MeaningOfAll;
      assert es[0].key < es[0] && es[0].val < es[0];
      SpellMeans(es[0].key, l);
      SpellMeans(es[0].val, l);
      EntriesMean(es[1..], l);
      EntryMeans(Spell(es[0].key, l), Spell(es[0].val, l), SpellEntries(es[1..], l));
      var k, v := Meaning(Spell(es[0].key, l)).value, Meaning(Spell(es[0].val, l)).value;
      FlatSplits(k, v, MeaningOfAll(SpellEntries(es[1..], l)).value, es);
    }
  }

  lemma FlatSplits(k: PyObject, v: PyObject, rest: seq<PyObject>, es: Entries)
    requires es != []
    ensures KeysHashable(rest) && Hashable(k) ==> KeysHashable([k, v] + rest)
    ensures [k, v] + rest == Flatten(es) <==> k == es[0].key && v == es[0].val && rest == Flatten(es[1..])
  {
    hide Hashable;
    var flat := [k, v] + rest;
    assert flat[0] == k && flat[1] == v && flat[2..] == rest;
    assert forall i :: 2 <= i < |flat| ==> flat[i] == rest[i - 2];
    assert Flatten(es)[0] == es[0].key && Flatten(es)[1] == es[0].val && Flatten(es)[2..] == Flatten(es[1..]);
  }

  lemma EntryMeans(k: Wire, v: Wire, rest: seq<Wire>)
    requires WellSpelled(k) && WellSpelled(v) && AllWellSpelled(rest)
    requires Meaning(k).Some? && Meaning(v).Some? && MeaningOfAll(rest).Some?
    ensures var xs := [k] + ([v] + rest);
            && AllWellSpelled(xs)
            && MeaningOfAll(xs) == Some([Meaning(k).value, Meaning(v).value] + MeaningOfAll(rest).value)
            && NestingOfAll(xs) == Max(Nesting(k), Max(Nesting(v), NestingOfAll(rest)))
  {
    hide Meaning, Nesting, WellSpelled;
    var ys := [v] + rest;
    assert ys[1..] == rest && ([k] + ys)[1..] == ys;
    assert MeaningOfAll(ys).value == [Meaning(v).value] + MeaningOfAll(rest).value;
    AppendAssociates([Meaning(k).value], [Meaning(v).value], MeaningOfAll(rest).value);
    assert [Meaning(k).value] + [Meaning(v).value] == [Meaning(k).value, Meaning(v).value];
  }
}
