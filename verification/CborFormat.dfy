/**
 The wire format in literal bytes: what the encoder writes for each type, what the decoder makes of each
 kind of initial byte, and when dict keys collide.
 */
module CborFormat {
  import opened Octets
  import opened PyFloats
  import opened PyObjects
  import opened CborElement
  import opened CborWire
  import opened CborDecoderSpec
  import opened CborDecoderProofs
  import opened CborEncoder
  import Utf8

  // ---------------------------------------------------------------- writing

  lemma BigEndianStep(n: nat, k: nat)
    ensures BigEndian(n, 0) == []
    ensures BigEndian(n, k + 1) == BigEndian(n / 0x100, k) + [n % 0x100]
  {
  }

  lemma BigEndianTwo(n: nat)
    ensures BigEndian(n, 1) == [n % 0x100]
    ensures BigEndian(n, 2) == [n / 0x100 % 0x100, n % 0x100]
  {
    hide BigEndian;
    BigEndianStep(n, 0);
    BigEndianStep(n / 0x100, 0);
    BigEndianStep(n, 1);
  }

  lemma BigEndianFour(n: nat)
    ensures BigEndian(n, 4) == [n / 0x100_0000 % 0x100, n / 0x1_0000 % 0x100, n / 0x100 % 0x100, n % 0x100]
  {
    hide BigEndian;
    BigEndianStep(n, 3);
    BigEndianStep(n / 0x100, 2);
    BigEndianTwo(n / 0x100 / 0x100);
    assert n / 0x100 / 0x100 == n / 0x1_0000 && n / 0x1_0000 / 0x100 == n / 0x100_0000;
  }

  /** Eight bytes are the upper four and the lower four. */
  lemma BigEndianEight(n: nat)
    ensures BigEndian(n, 8) == BigEndian(n / 0x1_0000_0000, 4) + BigEndian(n, 4)
  {
    hide BigEndian;
    var a, b, c := n / 0x100, n / 0x1_0000, n / 0x100_0000;
    assert a / 0x100 == b && b / 0x100 == c && c / 0x100 == n / 0x1_0000_0000;
    BigEndianStep(n, 7);
    BigEndianStep(a, 6);
    BigEndianStep(b, 5);
    BigEndianStep(c, 4);
    BigEndianFour(n);
    var high := BigEndian(c / 0x100, 4);
    assert high + [c % 0x100] + [b % 0x100] + [a % 0x100] + [n % 0x100]
        == high + [c % 0x100, b % 0x100, a % 0x100, n % 0x100];
  }

  /** A head as the encoder writes it: the initial byte, and an argument in as few bytes as it needs. */
  lemma HeadLayout(major: Major, n: nat)
    requires n < 0x1_0000_0000_0000_0000
    ensures ShortHead(major, n)
         == if n < 24 then [0x20 * major + n]
            else if n < 0x100 then [0x20 * major + 24, n]
            else if n < 0x1_0000 then [0x20 * major + 25, n / 0x100, n % 0x100]
            else if n < 0x1_0000_0000 then
              [0x20 * major + 26, n / 0x100_0000, n / 0x1_0000 % 0x100, n / 0x100 % 0x100, n % 0x100]
            else [0x20 * major + 27] + BigEndian(n / 0x1_0000_0000, 4) + BigEndian(n, 4)
  {
    hide BigEndian;
    BigEndianStep(n, 0);
    BigEndianTwo(n);
    BigEndianFour(n);
    BigEndianEight(n);
  }

  /** A head at any width: the additional information 24 to 27 announces 1, 2, 4 or 8 bytes. */
  lemma HeadLayoutAtWidth(major: Major, w: Width, n: nat)
    requires Fits(w, n)
    ensures HeadBytes(major, w, n)
         == match w
            case Embedded => [0x20 * major + n]
            case One => [0x20 * major + 24] + BigEndian(n, 1)
            case Two => [0x20 * major + 25] + BigEndian(n, 2)
            case Four => [0x20 * major + 26] + BigEndian(n, 4)
            case Eight => [0x20 * major + 27] + BigEndian(n, 8)
    ensures w == Embedded ==> n < 24
  {
    BigEndianStep(n, 0);
    hide BigEndian;
  }

  /** The syntax tree in bytes: which major each kind of item has, and the bytes that open and end it. */
  lemma SpellingLayout(x: Wire)
    requires WellSpelled(x)
    ensures x.Scalar? ==> Spelling(x) == HeadBytes(x.major, x.w, x.arg)
    ensures x.Text? ==>
              Spelling(x) == HeadBytes(if x.isText then 3 else 2, x.whole.w, |x.whole.payload|) + x.whole.payload
    ensures x.Chunked? ==> Spelling(x) == [if x.isText then 0x7F else 0x5F] + SpellChunks(x.isText, x.chunks) + [0xFF]
    ensures x.Container? && x.framing.UntilBreak? ==>
              Spelling(x) == [if x.isMap then 0xBF else 0x9F] + SpellAll(x.items) + [0xFF]
    ensures x.Container? && x.framing.Counted? && !x.isMap ==>
              Spelling(x) == HeadBytes(4, x.framing.w, |x.items|) + SpellAll(x.items)
    ensures x.Container? && x.framing.Counted? && x.isMap ==>
              |x.items| % 2 == 0 && Spelling(x) == HeadBytes(5, x.framing.w, |x.items| / 2) + SpellAll(x.items)
    ensures x.Tagged? ==> Spelling(x) == HeadBytes(6, x.w, x.tag) + Spelling(x.content)
  {
    hide HeadBytes;
  }

  /** The bytes of each type: majors 0 to 5 of RFC 8949 and the simple values and doubles of major 7. */
  lemma EncodedBytes(v: PyObject, l: LongWidth)
    requires IsObject(v)
    ensures v.PyNone? ==> Write(v, l).bytes == [0xF6]
    ensures v.PyBool? ==> Write(v, l).bytes == [if v.b then 0xF5 else 0xF4]
    ensures v.PyFloat? ==>
              Write(v, l).bytes == [0xFB] + (BigEndian(v.bits / 0x1_0000_0000, 4) + BigEndian(v.bits, 4))
    ensures v.PyInt? && 0 <= v.n < 0x1_0000_0000_0000_0000 ==> Write(v, l).bytes == ShortHead(0, v.n)
    ensures v.PyInt? && -0x1_0000_0000_0000_0000 <= v.n < 0 && !Misencoded(v.n, l) ==>
              Write(v, l).bytes == ShortHead(1, -1 - v.n)
    ensures v.PyBytes? ==> Write(v, l).bytes == ShortHead(2, |v.bytes|) + v.bytes
    ensures v.PyStr? && !HasSurrogate(v.chars) ==>
              Write(v, l).bytes == ShortHead(3, |Utf8.Encode(v.chars)|) + Utf8.Encode(v.chars)
    ensures v.PyList? ==> Write(v, l).bytes == ShortHead(4, |v.items|) + WriteAll(v.items, l).bytes
    ensures v.PyDict? ==> Write(v, l).bytes == ShortHead(5, |v.entries|) + WriteEntries(v.entries, l).bytes
    ensures v.Other? ==> Write(v, l).bytes == []
  {
    hide BigEndian, PyLongNumber, WriteIntNumber;
    match v
    case PyNone => HeadLayout(7, 22);
    case PyBool(b) => HeadLayout(7, if b then 21 else 20);
    case PyFloat(bits) =>
      BigEndianEight(bits);
    case PyInt(n) => IntegerWritten(n, l);
    case _ =>
  }

  lemma IntegerWritten(n: int, l: LongWidth)
    ensures 0 <= n < TWO_TO_THE_64 ==> PyLongNumber(n, l) == Some(Number(false, n))
    ensures -TWO_TO_THE_64 <= n < 0 && !Misencoded(n, l) ==> PyLongNumber(n, l) == Some(Number(true, -1 - n))
  {
    hide PyLongNumber;
    PyLongIsWriteInt(n, l);
  }

  predicate HasSurrogate(s: seq<Utf8.CodePoint>) {
    exists i :: 0 <= i < |s| && 0xD800 <= s[i] <= 0xDFFF
  }

  /** The first thing, in writing order, that cannot be written. */
  function FirstFault(v: PyObject): Option<WriteError>
    decreases v, 1
  {
    match v
    case PyInt(n) => if -0x1_0000_0000_0000_0000 <= n < 0x1_0000_0000_0000_0000 then None else Some(IntegerTooLarge)
    case PyStr(s) => if HasSurrogate(s) then Some(SurrogateInText) else None
    case PyList(items) => FirstFaultOf(items)
    case PyDict(entries) => FirstFaultOfEntries(entries)
    case Other(_) => Some(UnsupportedType)
    case _ => None
  }

  function FirstFaultOf(vs: seq<PyObject>): Option<WriteError>
    decreases vs, 0
  {
    if vs == [] then None
    else if FirstFault(vs[0]).Some? then FirstFault(vs[0]) else FirstFaultOf(vs[1..])
  }

  function FirstFaultOfEntries(es: Entries): Option<WriteError>
    decreases es, 0
  {
    if es == [] then None
    else
      assert es[0].key < es[0] && es[0].val < es[0];
      if FirstFault(es[0].key).Some? then FirstFault(es[0].key)
      else if FirstFault(es[0].val).Some? then FirstFault(es[0].val)
      else FirstFaultOfEntries(es[1..])
  }

  /** A write raises for the first thing it meets that cannot be written, and only then. */
  lemma {:induction false} WriteRaisesFirstFault(v: PyObject, l: LongWidth)
    requires IsObject(v)
    ensures Write(v, l).error == FirstFault(v)
    decreases v, 1
  {
    hide ShortHead, HeadBytes, Utf8.Encode, PyLongNumber, WriteIntNumber;
    if v.PyInt? {
      PyLongIsWriteInt(v.n, l);
    } else if v.PyList? {
      ItemsRaiseFirstFault(v.items, l);
    } else if v.PyDict? {
      EntriesRaiseFirstFault(v.entries, l);
    }
  }

  lemma {:induction false} ItemsRaiseFirstFault(vs: seq<PyObject>, l: LongWidth)
    requires AreObjects(vs)
    ensures WriteAll(vs, l).error == FirstFaultOf(vs)
    decreases vs, 0
  {
    hide Write, FirstFault, IsObject;
    if vs != [] {
      WriteRaisesFirstFault(vs[0], l);
      ItemsRaiseFirstFault(vs[1..], l);
    }
  }

  lemma {:induction false} EntriesRaiseFirstFault(es: Entries, l: LongWidth)
    requires AreEntries(es)
    ensures WriteEntries(es, l).error == FirstFaultOfEntries(es)
    decreases es, 0
  {
    hide Write, FirstFault, IsObject;
    if es != [] {
      assert es[0].key < es[0] && es[0].val < es[0];
      WriteRaisesFirstFault(es[0].key, l);
      WriteRaisesFirstFault(es[0].val, l);
      EntriesRaiseFirstFault(es[1..], l);
    }
  }

  // ---------------------------------------------------------------- reading

  /** Any width an integer fits in: major type 0 is the argument, major type 1 is -1 minus the argument. */
  lemma IntegersRead(w: Width, n: nat, rest: seq<Byte>, depth: nat)
    requires Fits(w, n) && depth < 128
    ensures PopItem(HeadBytes(0, w, n) + rest, depth) == Ok(PyInt(n), rest)
    ensures PopItem(HeadBytes(1, w, n) + rest, depth) == Ok(PyInt(-1 - n), rest)
  {
    IntegerIs(w, n);
    hide PopItem, HeadBytes, Limit, Spelling, Meaning, WellSpelled;
    ScalarOfSpelling(Scalar(0, w, n), rest, depth);
    ScalarOfSpelling(Scalar(1, w, n), rest, depth);
  }

  lemma IntegerIs(w: Width, n: nat)
    requires Fits(w, n)
    ensures WellSpelled(Scalar(0, w, n)) && WellSpelled(Scalar(1, w, n))
    ensures Spelling(Scalar(0, w, n)) == HeadBytes(0, w, n) && Spelling(Scalar(1, w, n)) == HeadBytes(1, w, n)
    ensures Meaning(Scalar(0, w, n)) == Some(PyInt(n)) && Meaning(Scalar(1, w, n)) == Some(PyInt(-1 - n))
  {
    hide HeadBytes, Limit;
  }

  /** The simple values that have an `AwsCborType`, each in its one byte. */
  lemma SimpleValuesRead(rest: seq<Byte>, depth: nat)
    requires depth < 128
    ensures PopItem([0xF4] + rest, depth) == Ok(PyBool(false), rest)
    ensures PopItem([0xF5] + rest, depth) == Ok(PyBool(true), rest)
    ensures PopItem([0xF6] + rest, depth) == Ok(PyNone, rest)
    ensures PopItem([0xF7] + rest, depth) == Ok(PyNone, rest)
  {
    SimpleValueRead(20, rest, depth);
    SimpleValueRead(21, rest, depth);
    SimpleValueRead(22, rest, depth);
    SimpleValueRead(23, rest, depth);
    hide PopItem;
  }

  lemma SimpleValueRead(n: nat, rest: seq<Byte>, depth: nat)
    requires n < 24 && depth < 128
    ensures var r := PopItem([0xE0 + n] + rest, depth);
            if n == 20 then r == Ok(PyBool(false), rest)
            else if n == 21 then r == Ok(PyBool(true), rest)
            else if n == 22 || n == 23 then r == Ok(PyNone, rest)
            else r == Err(InvalidCbor, [0xE0 + n] + rest)
  {
    var bs := [0xE0 + n] + rest;
    assert HeadBytes(7, Embedded, n) == [0xE0 + n] by {
      assert BigEndian(n, 0) == [];
    }
    NextOfScalar(Scalar(7, Embedded, n), rest);
    Dispatch(bs, depth);
    hide PopItem, NextElement, HeadBytes, ReadHead;
  }

  /** Half, single and double precision, by their big-endian patterns. */
  lemma FloatsRead(x: nat, rest: seq<Byte>, depth: nat)
    requires depth < 128
    ensures x < 0x1_0000 ==> PopItem([0xF9] + BigEndian(x, 2) + rest, depth) == Ok(PyFloat(WidenHalf(x)), rest)
    ensures x < 0x1_0000_0000 ==>
              PopItem([0xFA] + BigEndian(x, 4) + rest, depth) == Ok(PyFloat(WidenSingle(x)), rest)
    ensures x < 0x1_0000_0000_0000_0000 ==>
              PopItem([0xFB] + BigEndian(x, 8) + rest, depth) == Ok(PyFloat(x), rest)
  {
    hide PopItem, BigEndian, WidenHalf, WidenSingle;
    if x < 0x1_0000 {
      ScalarOfSpelling(Scalar(7, Two, x), rest, depth);
    }
    if x < 0x1_0000_0000 {
      ScalarOfSpelling(Scalar(7, Four, x), rest, depth);
    }
    if x < 0x1_0000_0000_0000_0000 {
      ScalarOfSpelling(Scalar(7, Eight, x), rest, depth);
    }
  }

  /** Tag 1 with an integer or a float behind it is read as that number, and no other tagged item is read. */
  lemma TagIsReadIff(w: Width, tag: nat, x: Wire, rest: seq<Byte>, depth: nat)
    requires Fits(w, tag) && WellSpelled(x)
    ensures var bs := HeadBytes(6, w, tag) + Spelling(x) + rest;
            && (PopItem(bs, depth).Ok? <==>
                  && depth + 2 <= 128 && tag == 1 && x.Scalar?
                  && (x.major == 0 || x.major == 1 || (x.major == 7 && (x.w == Two || x.w == Four || x.w == Eight))))
            && (PopItem(bs, depth).Ok? ==> PopItem(bs, depth) == PopItem(Spelling(x) + rest, depth + 1))
  {
    hide PopItem, Spelling, HeadBytes, Meaning, Nesting, WellSpelled;
    TaggedIs(w, tag, x);
    NumberIff(x);
    ItemOfSpelling(Tagged(w, tag, x), rest, depth);
    ItemOfSpelling(x, rest, depth + 1);
  }

  lemma TaggedIs(w: Width, tag: nat, x: Wire)
    requires Fits(w, tag) && WellSpelled(x)
    ensures var y := Tagged(w, tag, x);
            && WellSpelled(y) && Spelling(y) == HeadBytes(6, w, tag) + Spelling(x) && Nesting(y) == 1 + Nesting(x)
            && Meaning(y) == if tag == 1 && x.Scalar? && IsNumeric(x) then Meaning(x) else None
  {
    hide HeadBytes, IsNumeric;
  }

  lemma NumberIff(x: Wire)
    requires WellSpelled(x)
    ensures x.Scalar? && IsNumeric(x) <==>
              && x.Scalar?
              && (x.major == 0 || x.major == 1 || (x.major == 7 && (x.w == Two || x.w == Four || x.w == Eight)))
    ensures x.Scalar? && IsNumeric(x) ==> Meaning(x).Some? && Nesting(x) == 1
  {
    hide WidenHalf, WidenSingle;
  }

  /** A count that is no `Py_ssize_t` is an error as soon as it is read; no other count is. */
  lemma CountIsTooLargeIff(isMap: bool, n: nat, rest: seq<Byte>, depth: nat)
    requires n < 0x1_0000_0000_0000_0000
    ensures var bs := HeadBytes(ContainerMajor(isMap), Eight, n) + rest;
            var r := if isMap then PopDict(bs, depth) else PopList(bs, depth);
            r == if n >= 0x8000_0000_0000_0000 then Err(TooLarge, rest)
                 else if isMap then PopEntries(n, [], rest, depth) else PopItems(n, [], rest, depth)
  {
    ReadWrittenHead(ContainerMajor(isMap), Eight, n, rest);
    hide ReadHead, HeadBytes, PopEntries, PopItems;
  }

  /** A definite string: refused if its size is no `Py_ssize_t`, or as text that is not UTF-8, but always passed. */
  lemma StringIsRead(isText: bool, c: Chunk, rest: seq<Byte>)
    requires Fits(c.w, |c.payload|)
    ensures PopString(isText, SpellChunk(isText, c) + rest)
         == if |c.payload| >= 0x8000_0000_0000_0000 then Err(TooLarge, rest)
            else if !isText then Ok(PyBytes(c.payload), rest)
            else if Utf8.Decode(c.payload).None? then Err(BadText, rest)
            else Ok(PyStr(Utf8.Decode(c.payload).value), rest)
  {
    StringOfSpelling(isText, c, rest);
    hide PopString, SpellChunk, Utf8.Decode;
  }

  /** Every pop refuses an element of another type, and bytes that are no element, without moving. */
  lemma WrongElement(bs: seq<Byte>, isText: bool, depth: nat)
    ensures NextElement(bs).NoElement? ==>
              && PopString(isText, bs) == Err(InvalidCbor, bs) && PopIndefString(isText, bs) == Err(InvalidCbor, bs)
              && PopChunks(isText, if isText then PyStr([]) else PyBytes([]), bs) == Err(InvalidCbor, bs)
              && PopTag(bs, depth) == Err(InvalidCbor, bs)
              && PopList(bs, depth) == Err(InvalidCbor, bs) && PopDict(bs, depth) == Err(InvalidCbor, bs)
    ensures NextElement(bs).Next? ==>
              var e := NextElement(bs).e;
              && ((if isText then !e.TextStr? else !e.ByteStr?) ==> PopString(isText, bs) == Err(UnexpectedType, bs))
              && ((if isText then !e.IndefTextStart? else !e.IndefBytesStart?) ==>
                    PopIndefString(isText, bs) == Err(UnexpectedType, bs))
              && (!e.TagStart? ==> PopTag(bs, depth) == Err(UnexpectedType, bs))
              && (!e.ArrayStart? && !e.IndefArrayStart? ==> PopList(bs, depth) == Err(UnexpectedType, bs))
              && (!e.MapStart? && !e.IndefMapStart? ==> PopDict(bs, depth) == Err(UnexpectedType, bs))
  {
    hide NextElement, PopItems, PopItemsUntilBreak, PopEntries, PopEntriesUntilBreak;
  }

  /** Behind the epoch tag, what is no number is refused where it stands. */
  lemma WrongTagContent(w: Width, rest: seq<Byte>, depth: nat)
    requires Fits(w, 1)
    ensures var r := PopTag(HeadBytes(6, w, 1) + rest, depth);
            && (NextElement(rest).NoElement? ==> r == Err(InvalidCbor, rest))
            && (NextElement(rest).Next? && !IsNumber(NextElement(rest).e) ==> r == Err(UnexpectedType, rest))
  {
    ReadWrittenHead(6, w, 1, rest);
    hide ReadHead, HeadBytes;
    assert NextElement(HeadBytes(6, w, 1) + rest) == Next(TagStart(1), 1 + Size(w));
    hide NextElement, PopItem;
  }

  /** Errors that the initial byte decides, and where they leave the cursor. */
  lemma ErrorsAtHead(bs: seq<Byte>, depth: nat)
    ensures depth >= 128 ==> PopItem(bs, depth) == Err(RecursionLimit, bs)
    ensures depth < 128 && bs == [] ==> PopItem(bs, depth) == Err(InvalidCbor, bs)
    ensures depth < 128 && bs != [] && bs[0] == 0xFF ==> PopItem(bs, depth) == Err(UnexpectedType, bs)
  {
    NextIsBreak(bs);
    if bs != [] && bs[0] == 0xFF {
      NextOfBreak(bs[1..]);
      assert bs == [BREAK] + bs[1..];
    }
  }

  /** Which error a string, a tag or a wrong type raises, and where it leaves the cursor. */
  lemma ErrorsBehindHead(w: Width, n: nat, payload: seq<Byte>, rest: seq<Byte>, depth: nat)
    requires Fits(w, n) && Fits(w, |payload|) && |payload| <= SSIZE_MAX && depth < 128
    ensures n != 1 ==> PopItem(HeadBytes(6, w, n) + rest, depth) == Err(UnsupportedTag, rest)
    ensures Utf8.Decode(payload).None? ==>
              PopItem(HeadBytes(3, w, |payload|) + payload + rest, depth) == Err(BadText, rest)
  {
    TagHead(w, n, rest, depth);
    Dispatch(SpellChunk(true, Chunk(w, payload)) + rest, depth);
    NextOfChunk(true, Chunk(w, payload), rest);
    StringOfSpelling(true, Chunk(w, payload), rest);
    hide PopItem, NextElement, HeadBytes, PopString, Utf8.Decode;
  }

  lemma TagHead(w: Width, n: nat, rest: seq<Byte>, depth: nat)
    requires Fits(w, n)
    ensures n != 1 && depth < 128 ==> PopItem(HeadBytes(6, w, n) + rest, depth) == Err(UnsupportedTag, rest)
  {
    if n != 1 && depth < 128 {
      ReadWrittenHead(6, w, n, rest);
      hide ReadHead, HeadBytes;
      var bs := HeadBytes(6, w, n) + rest;
      assert NextElement(bs) == Next(TagStart(n), 1 + Size(w));
      Dispatch(bs, depth);
    }
  }

  /** A map entry reads its value even after its key failed, from where the key stopped, and the value's error wins. */
  lemma EntryErrors(done: Entries, bs: seq<Byte>, depth: nat)
    ensures var k := PopItem(bs, depth);
            var v := PopItem(k.rest, depth);
            var turn := PopEntry(done, bs, depth);
            && turn.rest == v.rest
            && (v.Err? ==> turn == Stop(v.error, v.rest))
            && (v.Ok? && k.Err? ==> turn == Stop(k.error, v.rest))
            && (v.Ok? && k.Ok? && (k.value.PyList? || k.value.PyDict?) ==> turn == Stop(UnhashableKey, v.rest))
            && (v.Ok? && k.Ok? && !k.value.PyList? && !k.value.PyDict? ==>
                  turn == Go(SetItem(done, k.value, v.value), v.rest))
  {
    hide PopItem, SetItem;
  }

  // ------------------------------------------------------------- dict keys

  predicate PlainKey(v: PyObject) {
    v.PyStr? || v.PyBytes? || v.PyInt?
  }

  /** Alternating keys and values, the keys being strings, bytes or integers and pairwise unequal. */
  predicate PlainPairs(flat: seq<PyObject>) {
    && |flat| % 2 == 0
    && (forall i :: 0 <= i < |flat| / 2 ==> PlainKey(flat[2 * i]))
    && (forall i, j :: 0 <= i < j < |flat| / 2 ==> flat[2 * i] != flat[2 * j])
  }

  function PairUp(flat: seq<PyObject>): (es: Entries)
    requires |flat| % 2 == 0
    ensures |es| == |flat| / 2
    ensures forall i :: 0 <= i < |es| ==> es[i] == Entry(flat[2 * i], flat[2 * i + 1])
  {
    seq(|flat| / 2, i requires 0 <= i < |flat| / 2 => Entry(flat[2 * i], flat[2 * i + 1]))
  }

  lemma PlainKeysDiffer(x: PyObject, y: PyObject)
    requires PlainKey(x) && PlainKey(y)
    ensures SameKey(x, y) <==> x == y
  {
    SameKeyIff(x, y);
    hide SameKey;
  }

  lemma {:induction false} FlattenOfPairs(es: Entries, flat: seq<PyObject>)
    requires |flat| == 2 * |es|
    requires forall i :: 0 <= i < |es| ==> es[i] == Entry(flat[2 * i], flat[2 * i + 1])
    ensures Flatten(es) == flat
  {
    if es != [] {
      var tail := flat[2..];
      forall i | 0 <= i < |es[1..]| ensures es[1..][i] == Entry(tail[2 * i], tail[2 * i + 1]) {
        assert es[1..][i] == es[i + 1];
      }
      FlattenOfPairs(es[1..], tail);
      assert flat == [flat[0], flat[1]] + tail;
    }
  }

  lemma PlainPairsKeepEntries(flat: seq<PyObject>)
    requires PlainPairs(flat)
    ensures SetItems([], flat) == Some(PairUp(flat))
  {
    var es := PairUp(flat);
    forall i, j | 0 <= i < j < |es| ensures !SameKey(es[i].key, es[j].key) {
      PlainKeysDiffer(es[i].key, es[j].key);
    }
    FlattenOfPairs(es, flat);
    assert [] + es == es;
    SetItemsOfFlatten([], es);
  }

  /**
   A map whose keys are pairwise unequal strings, bytes or integers is read as one entry for every pair, in
   the order of the pairs, whatever its framing.
   */
  lemma MapWithPlainKeys(framing: Framing, xs: seq<Wire>, rest: seq<Byte>, depth: nat)
    requires WellSpelled(Container(true, framing, xs))
    requires MeaningOfAll(xs).Some? && PlainPairs(MeaningOfAll(xs).value)
    requires depth + 1 + NestingOfAll(xs) <= 128 && |xs| / 2 <= 0x7FFF_FFFF_FFFF_FFFF
    ensures PopItem(Spelling(Container(true, framing, xs)) + rest, depth)
         == Ok(PyDict(PairUp(MeaningOfAll(xs).value)), rest)
  {
    hide Spelling, PopItem, MeaningOfAll, NestingOfAll, PlainPairs, SetItems, AllWellSpelled;
    PlainPairsKeepEntries(MeaningOfAll(xs).value);
    ItemOfSpelling(Container(true, framing, xs), rest, depth);
  }
}
