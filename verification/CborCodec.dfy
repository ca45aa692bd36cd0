/** The codec as a whole: the theorems about writing and then popping. */
module CborCodec {
  import opened Octets
  import opened PyObjects
  import opened CborElement
  import opened CborWire
  import opened CborWellFormed
  import opened CborDecoderSpec
  import opened CborDecoderProofs
  import opened CborEncoder
  import opened CborEncoderProofs
  import opened CborUnique
  import opened CborRespelling
  import Utf8

  // ------------------------------------------------------------- round trip

  /**
   Writing a supported object and popping one item at its first byte, whatever follows: within the depth
   limit the pop stops right behind the item and returns the object itself, if and only if no integer in
   it is misencoded; beyond the limit it raises the recursion error.
   */
  lemma RoundTrip(v: PyObject, l: LongWidth, rest: seq<Byte>, depth: nat)
    requires IsObject(v) && Encodable(v)
    ensures Write(v, l).error.None?
    ensures var r := PopItem(Write(v, l).bytes + rest, depth);
            if depth + Depth(v) <= 128
            then r.Ok? && r.rest == rest && (r.value == v <==> Faithful(v, l))
            else r.Err? && r.error == RecursionLimit
  {
    hide PopItem, Write, Spelling, Spell, Meaning, Nesting, IsObject, Encodable, Faithful;
    WriteSpells(v, l);
    SpellMeans(v, l);
    ItemOfSpelling(Spell(v, l), rest, depth);
  }

  /** On a build with a 64-bit `long` nothing is misencoded. */
  lemma {:induction false} Long64IsFaithful(v: PyObject)
    ensures Faithful(v, Long64)
    decreases v, 1
  {
    match v
    case PyList(items) => AllLong64AreFaithful(items);
    case PyDict(entries) => EntriesLong64AreFaithful(entries);
    case _ =>
  }

  lemma {:induction false} AllLong64AreFaithful(vs: seq<PyObject>)
    ensures AllFaithful(vs, Long64)
    decreases vs, 0
  {
    if vs != [] {
      Long64IsFaithful(vs[0]);
      AllLong64AreFaithful(vs[1..]);
    }
  }

  lemma {:induction false} EntriesLong64AreFaithful(es: Entries)
    ensures EntriesFaithful(es, Long64)
    decreases es, 0
  {
    if es != [] {
      assert es[0].key < es[0] && es[0].val < es[0];
      Long64IsFaithful(es[0].key);
      Long64IsFaithful(es[0].val);
      EntriesLong64AreFaithful(es[1..]);
    }
  }

  // ------------------------------------------------------------ exact depth

  /**
   `pop_next_data_item` reads an encoded list or dict of nesting depth at most 128; the direct entry
   points `pop_next_list` and `pop_next_map` do not count the outer level and read one level more.
   */
  lemma DirectEntryReadsOneLevelMore(v: PyObject, l: LongWidth, rest: seq<Byte>)
    requires IsObject(v) && Encodable(v) && (v.PyList? || v.PyDict?)
    ensures var bs := Write(v, l).bytes + rest;
            && (PopItem(bs, 0).Ok? <==> Depth(v) <= 128)
            && ((if v.PyList? then PopList(bs, 0) else PopDict(bs, 0)).Ok? <==> Depth(v) <= 129)
  {
    hide PopItem, PopList, PopDict, Spelling, WellSpelled, Write, IsObject, Encodable, Faithful, Meaning;
    RoundTrip(v, l, rest, 0);
    WriteSpells(v, l);
    SpellMeans(v, l);
    var x := Spell(v, l);
    ContainerOfSpelling(x.isMap, x.framing, x.items, rest, 0);
  }

  // ------------------------------------------------------ extent and converse

  /** A successful pop consumes exactly what `consume_next_whole_data_item` consumes. */
  lemma PopConsumesOneWholeItem(bs: seq<Byte>, depth: nat)
    requires PopItem(bs, depth).Ok?
    ensures ConsumeWhole(bs) == Some(PopItem(bs, depth).rest)
    ensures |PopItem(bs, depth).rest| < |bs|
  {
    hide PopItem, WellFormed;
    AcceptedIsWellFormed(bs, depth, false);
  }

  /**
   The converse: one well-formed item is popped if and only if it has a meaning and is not nested too
   deeply; unsupported tags, bad text, unhashable keys, oversize counts and depth are the only causes.
   */
  lemma WholeItemIsPoppedIff(bs: seq<Byte>, depth: nat) returns (x: Wire)
    requires ConsumeWhole(bs).Some?
    ensures WellSpelled(x) && bs == Spelling(x) + ConsumeWhole(bs).value
    ensures PopItem(bs, depth).Ok? <==> Meaning(x).Some? && depth + Nesting(x) <= 128
    ensures PopItem(bs, depth).Ok? ==> PopItem(bs, depth) == Ok(Meaning(x).value, ConsumeWhole(bs).value)
  {
    hide PopItem, WellFormed, Spelling, Meaning, Nesting, WellSpelled;
    x := WellFormedIsSpelling(bs, false);
    ItemOfSpelling(x, ConsumeWhole(bs).value, depth);
  }

  /**
   Nothing cut short is ever accepted: no strict prefix of an item decodes, so an indefinite array or map
   without its break raises an error at every nesting.
   */
  lemma TruncatedItemIsRejected(x: Wire, k: nat, depth: nat)
    requires WellSpelled(x) && k < |Spelling(x)|
    ensures PopItem(Spelling(x)[..k], depth).Err?
    ensures ConsumeWhole(Spelling(x)[..k]).None?
  {
    hide PopItem, WellFormed;
    var bs := Spelling(x)[..k];
    if ConsumeWhole(bs).Some? {
      var y := WellFormedIsSpelling(bs, false);
      var r, cut := ConsumeWhole(bs).value, Spelling(x)[k..];
      AppendAssociates(Spelling(y), r, cut);
      assert Spelling(x) + [] == Spelling(y) + (r + cut);
      SpellingIsUnique(x, y, [], r + cut);
      assert false;
    }
    if PopItem(bs, depth).Ok? {
      PopConsumesOneWholeItem(bs, depth);
    }
  }

  // ------------------------------------------------------ unique readability

  /**
   Encodings are prefix-free, whatever the objects: where one encoding starts, no other starts. They are
   injective wherever no integer is misencoded.
   */
  lemma EncodingsAreUnique(v: PyObject, w: PyObject, l: LongWidth, a: seq<Byte>, b: seq<Byte>)
    requires IsObject(v) && Encodable(v) && IsObject(w) && Encodable(w)
    requires Write(v, l).bytes + a == Write(w, l).bytes + b
    ensures a == b && Write(v, l).bytes == Write(w, l).bytes
    ensures Faithful(v, l) && Faithful(w, l) ==> v == w
  {
    hide Write, Spelling, Spell, Meaning, IsObject, Encodable, Faithful;
    WriteSpells(v, l);
    WriteSpells(w, l);
    SpellingIsUnique(Spell(v, l), Spell(w, l), a, b);
    SpellMeans(v, l);
    SpellMeans(w, l);
  }

  /** The values of `n` successive pops and the bytes left, when all of them succeed. */
  function PopMany(n: nat, bs: seq<Byte>): Option<(seq<PyObject>, seq<Byte>)> {
    if n == 0 then Some(([], bs))
    else
      match PopItem(bs, 0)
      case Err(_, _) => None
      case Ok(v, rest) =>
        match PopMany(n - 1, rest)
        case None => None
        case Some((vs, rest')) => Some(([v] + vs, rest'))
  }

  predicate AllShallow(vs: seq<PyObject>) {
    forall i :: 0 <= i < |vs| ==> Depth(vs[i]) <= MAX_DECODE_DEPTH
  }

  /**
   Any sequence of successful writes on one encoder is popped item by item with nothing left over, and the
   values come back in order if and only if no integer in them is misencoded.
   */
  lemma {:induction false} StreamRoundTrip(vs: seq<PyObject>, l: LongWidth, rest: seq<Byte>)
    requires AreObjects(vs) && AllEncodable(vs) && AllShallow(vs)
    ensures WriteAll(vs, l).error.None?
    ensures var r := PopMany(|vs|, WriteAll(vs, l).bytes + rest);
            && r.Some? && r.value.1 == rest && |r.value.0| == |vs|
            && (r.value.0 == vs <==> AllFaithful(vs, l))
  {
    hide PopItem, Write, IsObject, Encodable, Faithful, Depth;
    if vs == [] {
      assert WriteAll(vs, l).bytes + rest == rest;
    } else {
      var first, tail := Write(vs[0], l), WriteAll(vs[1..], l);
      assert Depth(vs[0]) <= MAX_DECODE_DEPTH;
      RoundTrip(vs[0], l, tail.bytes + rest, 0);
      assert WriteAll(vs, l).bytes == first.bytes + tail.bytes;
      AppendAssociates(first.bytes, tail.bytes, rest);
      assert forall i :: 0 <= i < |vs[1..]| ==> vs[1..][i] == vs[i + 1];
      StreamRoundTrip(vs[1..], l, rest);
      var head := PopItem(first.bytes + (tail.bytes + rest), 0);
      var others := PopMany(|vs| - 1, tail.bytes + rest);
      assert PopMany(|vs|, WriteAll(vs, l).bytes + rest) == Some(([head.value] + others.value.0, rest));
      assert ([head.value] + others.value.0)[0] == head.value && ([head.value] + others.value.0)[1..] == others.value.0;
      assert vs == [vs[0]] + vs[1..];
    }
  }

  // ----------------------------------------------------------- normalisation

  /** An object that is well-formed, encodable, and no deeper than `k`. */
  predicate Regular(v: PyObject, k: nat) {
    IsObject(v) && Encodable(v) && Depth(v) <= k
  }

  predicate AllRegular(vs: seq<PyObject>, k: nat) {
    forall i :: 0 <= i < |vs| ==> Regular(vs[i], k)
  }

  predicate EntriesRegular(es: Entries, k: nat) {
    forall i :: 0 <= i < |es| ==> Regular(es[i].key, k) && Regular(es[i].val, k)
  }

  lemma {:induction false} RegularItems(vs: seq<PyObject>, k: nat)
    requires AllRegular(vs, k)
    ensures AreObjects(vs) && AllEncodable(vs) && DepthOfAll(vs) <= k
  {
    hide IsObject, Encodable, Depth;
    if vs != [] {
      assert Regular(vs[0], k);
      assert forall i :: 0 <= i < |vs[1..]| ==> vs[1..][i] == vs[i + 1];
      RegularItems(vs[1..], k);
    }
  }

  lemma {:induction false} RegularEntries(es: Entries, k: nat)
    requires EntriesRegular(es, k)
    ensures AreEntries(es) && EntriesEncodable(es) && DepthOfEntries(es) <= k
  {
    hide IsObject, Encodable, Depth;
    if es != [] {
      assert Regular(es[0].key, k) && Regular(es[0].val, k);
      assert forall i :: 0 <= i < |es[1..]| ==> es[1..][i] == es[i + 1];
      RegularEntries(es[1..], k);
    }
  }

  lemma {:induction false} SetItemKeepsRegular(es: Entries, key: PyObject, val: PyObject, k: nat)
    requires EntriesRegular(es, k) && Regular(key, k) && Regular(val, k)
    ensures EntriesRegular(SetItem(es, key, val), k)
  {
    hide Regular, SameKey;
    if es != [] {
      assert forall i :: 0 <= i < |es[1..]| ==> es[1..][i] == es[i + 1];
      SetItemKeepsRegular(es[1..], key, val, k);
    }
  }

  lemma {:induction false} SetItemsKeepRegular(es: Entries, flat: seq<PyObject>, k: nat)
    requires |flat| % 2 == 0 && EntriesRegular(es, k) && AllRegular(flat, k) && SetItems(es, flat).Some?
    ensures EntriesRegular(SetItems(es, flat).value, k)
    decreases |flat|
  {
    hide Regular, SetItem;
    if flat != [] {
      SetItemKeepsRegular(es, flat[0], flat[1], k);
      assert forall i :: 0 <= i < |flat[2..]| ==> flat[2..][i] == flat[i + 2];
      SetItemsKeepRegular(SetItem(es, flat[0], flat[1]), flat[2..], k);
    }
  }

  /** Whatever an item means is a regular object, no deeper than the item. */
  lemma {:induction false} MeaningIsRegular(x: Wire)
    requires WellSpelled(x) && Meaning(x).Some? && |Spelling(x)| <= SSIZE_MAX
    ensures Regular(Meaning(x).value, Nesting(x))
    decreases x, 1
  {
    if IsString(x) {
      if x.Chunked? {
        ChunksAreCut(x.isText, x.chunks);
      }
      StringMeansItsPayload(x);
      if x.isText {
        Utf8.EncodeOfDecode(WholePayload(x));
      }
      WholePayloadFits(x);
    } else if x.Container? {
      ContainerMeaningIsRegular(x);
    } else if x.Tagged? {
      MeaningIsRegular(x.content);
    }
  }

  lemma WholePayloadFits(x: Wire)
    requires WellSpelled(x) && IsString(x)
    ensures |WholePayload(x)| <= |Spelling(x)|
  {
    if x.Chunked? {
      ChunksFillTheirSpelling(x.isText, x.chunks);
    }
  }

  lemma {:induction false} ContainerMeaningIsRegular(x: Wire)
    requires x.Container? && WellSpelled(x) && Meaning(x).Some? && |Spelling(x)| <= SSIZE_MAX
    ensures Regular(Meaning(x).value, Nesting(x))
    decreases x, 0
  {
    hide Regular;
    var vs := MeaningOfAll(x.items).value;
    ItemsFillTheirSpelling(x.items);
    AllMeaningsAreRegular(x.items, NestingOfAll(x.items));
    var k := NestingOfAll(x.items);
    if x.isMap {
      var es := SetItems([], vs).value;
      SetItemsKeepRegular([], vs, k);
      SetItemsKeepsKeys([], vs);
      DictIsRegular(es, k);
    } else {
      ListIsRegular(vs, k);
    }
  }

  lemma ListIsRegular(vs: seq<PyObject>, k: nat)
    requires AllRegular(vs, k) && |vs| <= SSIZE_MAX
    ensures Regular(PyList(vs), k + 1)
  {
    RegularItems(vs, k);
  }

  lemma DictIsRegular(es: Entries, k: nat)
    requires EntriesRegular(es, k) && |es| <= SSIZE_MAX && DistinctKeys(es)
    ensures Regular(PyDict(es), k + 1)
  {
    RegularEntries(es, k);
  }

  lemma {:induction false} AllMeaningsAreRegular(xs: seq<Wire>, k: nat)
    requires AllWellSpelled(xs) && MeaningOfAll(xs).Some? && |SpellAll(xs)| <= SSIZE_MAX
    requires NestingOfAll(xs) <= k
    ensures AllRegular(MeaningOfAll(xs).value, k)
    decreases xs, 0
  {
    hide Meaning, Nesting, Spelling, WellSpelled, IsObject, Encodable, Depth;
    if xs != [] {
      MeaningIsRegular(xs[0]);
      AllMeaningsAreRegular(xs[1..], k);
      var vs := MeaningOfAll(xs).value;
      assert vs[0] == Meaning(xs[0]).value;
      assert forall i :: 0 < i < |vs| ==> vs[i] == MeaningOfAll(xs[1..]).value[i - 1];
    }
  }

  /**
   Normalisation: any value the decoder returns for any source can be written again, and popping what
   was written returns the same value, if and only if no integer in it is misencoded.
   */
  lemma Normalisation(bs: seq<Byte>, depth: nat, l: LongWidth, rest: seq<Byte>)
    requires |bs| <= SSIZE_MAX && PopItem(bs, depth).Ok?
    ensures var v := PopItem(bs, depth).value;
            && IsObject(v) && Encodable(v)
            && Write(v, l).error.None?
            && var r := PopItem(Write(v, l).bytes + rest, depth);
            && r.Ok? && r.rest == rest
            && (r.value == v <==> Faithful(v, l))
  {
    hide PopItem, Meaning, Nesting, Spelling, WellSpelled, IsObject, Encodable, Faithful, Write;
    var x := AcceptedIsSpelling(bs, depth);
    MeaningIsRegular(x);
    RoundTrip(PopItem(bs, depth).value, l, rest, depth);
  }
}
