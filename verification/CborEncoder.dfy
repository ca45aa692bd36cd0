/** The encoder: what a write appends, and the class that appends it step by step. */
module CborEncoder {
  import opened Octets
  import opened PyObjects
  import opened CborElement
  import Utf8

  // --------------------------------------------------------------- integers

  /** The width of C `long`: 32 bits on Windows, 64 bits on the other supported platforms. */
  datatype LongWidth = Long32 | Long64

  function LongMin(l: LongWidth): int {
    match l
    case Long32 => -0x8000_0000
    case Long64 => -0x8000_0000_0000_0000
  }

  function LongMax(l: LongWidth): int {
    -1 - LongMin(l)
  }

  /** Negation in `long`, which wraps around at the minimum. */
  function NegateLong(n: int, l: LongWidth): int {
    if n == LongMin(l) then n else -n
  }

  /** Conversion to `uint64_t`; subtraction of one from it wraps around too. */
  function ToUint64(n: int): (r: nat)
    ensures r < TWO_TO_THE_64
  {
    n % TWO_TO_THE_64
  }

  /** An integer as an element: major type 0 or 1, and the argument. */
  datatype Number = Number(negative: bool, arg: nat)

  /** The three branches of `s_cbor_encoder_write_pylong`. */
  function PyLongNumber(n: int, l: LongWidth): (r: Option<Number>)
    ensures r.Some? ==> r.value.arg < TWO_TO_THE_64
  {
    if LongMin(l) <= n <= LongMax(l) then
      if n >= 0 then Some(Number(false, n))
      else Some(Number(true, ToUint64(ToUint64(NegateLong(n, l)) - 1)))
    else if n < 0 then
      if -n - 1 < TWO_TO_THE_64 then Some(Number(true, -n - 1)) else None
    else if n < TWO_TO_THE_64 then Some(Number(false, n))
    else None
  }

  /** The arithmetic of `AwsCborEncoder.write_int`. */
  function WriteIntNumber(n: int): (r: Option<Number>) {
    var number := if n >= 0 then Number(false, n) else Number(true, -1 - n);
    if number.arg < TWO_TO_THE_64 then Some(number) else None
  }

  /** The decoder's reading of an integer element. */
  function NumberValue(m: Number): int {
    if m.negative then -1 - m.arg else m.arg
  }

  /** The one integer that a 32-bit `long` build writes wrongly. */
  predicate Misencoded(n: int, l: LongWidth) {
    l == Long32 && n == -0x8000_0000
  }

  /**
   The encoder accepts exactly [-2^64, 2^64 - 1] on every platform, and its three branches agree with
   `write_int`, and so with the decoder, except at the minimum of a 32-bit `long`.
   */
  lemma PyLongIsWriteInt(n: int, l: LongWidth)
    ensures PyLongNumber(n, l).Some? <==> -TWO_TO_THE_64 <= n < TWO_TO_THE_64
    ensures PyLongNumber(n, l) == WriteIntNumber(n) <==> !Misencoded(n, l)
    ensures PyLongNumber(n, l).Some? ==>
              (NumberValue(PyLongNumber(n, l).value) == n <==> !Misencoded(n, l))
  {
    if LongMin(l) < n < 0 {
      assert ToUint64(NegateLong(n, l)) == -n;
    } else if n == LongMin(l) {
      assert ToUint64(n) == n + TWO_TO_THE_64;
    }
  }

  /** -2147483648 is written as -18446744071562067968 where `long` has 32 bits. */
  lemma MinimumOfLong32IsWrittenWrongly()
    ensures PyLongNumber(-2147483648, Long32) == Some(Number(true, 18446744071562067967))
    ensures NumberValue(Number(true, 18446744071562067967)) == -18446744071562067968
  {
    assert ToUint64(-2147483648) == 18446744071562067968;
  }

  // ---------------------------------------------------------------- objects

  datatype WriteError = IntegerTooLarge | SurrogateInText | UnsupportedType

  /** The bytes a write appends, complete or not, and its error. */
  datatype Written = Written(bytes: seq<Byte>, error: Option<WriteError>)

  function ShortHead(major: Major, n: nat): seq<Byte>
    requires n < TWO_TO_THE_64
  {
    HeadBytes(major, Shortest(n), n)
  }

  function NumberMajor(m: Number): Major {
    if m.negative then 1 else 0
  }

  function Write(v: PyObject, l: LongWidth): (r: Written)
    requires IsObject(v)
    decreases v, 1
  {
    match v
    case PyNone => Written(ShortHead(7, 22), None)
    case PyInt(n) =>
      (match PyLongNumber(n, l)
       case None => Written([], Some(IntegerTooLarge))
       case Some(m) => Written(ShortHead(NumberMajor(m), m.arg), None))
    case PyFloat(bits) => Written(HeadBytes(7, Eight, bits), None)
    case PyBool(b) => Written(ShortHead(7, if b then 21 else 20), None)
    case PyBytes(b) => Written(ShortHead(2, |b|) + b, None)
    case PyStr(s) =>
      if Utf8.AllScalar(s) then Written(ShortHead(3, |Utf8.Encode(s)|) + Utf8.Encode(s), None)
      else Written([], Some(SurrogateInText))
    case PyList(items) => After(ShortHead(4, |items|), WriteAll(items, l))
    case PyDict(entries) => After(ShortHead(5, |entries|), WriteEntries(entries, l))
    case Other(_) => Written([], Some(UnsupportedType))
  }

  function After(prefix: seq<Byte>, w: Written): Written {
    w.(bytes := prefix + w.bytes)
  }

  /** Writes one after the other, stopping at the first failure. */
  function Then(first: Written, second: Written): Written {
    if first.error.Some? then first else After(first.bytes, second)
  }

  function WriteAll(vs: seq<PyObject>, l: LongWidth): (r: Written)
    requires AreObjects(vs)
    decreases vs, 0
  {
    if vs == [] then Written([], None) else Then(Write(vs[0], l), WriteAll(vs[1..], l))
  }

  function WriteEntries(es: Entries, l: LongWidth): (r: Written)
    requires AreEntries(es)
    decreases es, 0
  {
    if es == [] then Written([], None)
    else
      assert es[0].key < es[0] && es[0].val < es[0];
      Then(Write(es[0].key, l), Then(Write(es[0].val, l), WriteEntries(es[1..], l)))
  }

  /** Moves `b` from what is still to be written to what has been written. */
  lemma ThenMoves(before: seq<Byte>, a: Written, b: Written, c: Written)
    requires a.error.None?
    ensures Then(a, Then(b, c)) == Then(Then(a, b), c)
    ensures Then(a, b).error == b.error
    ensures before + a.bytes + b.bytes == before + Then(a, b).bytes
    ensures b.error.Some? ==> Then(Then(a, b), c) == Then(a, b)
  {
    AppendAssociates(before, a.bytes, b.bytes);
    if b.error.None? {
      AppendAssociates(a.bytes, b.bytes, c.bytes);
    }
  }

  /** What the rest of a dict writes, one entry at a time. */
  lemma WriteEntriesFrom(es: Entries, pos: nat, l: LongWidth)
    requires pos < |es| && AreEntries(es[pos..])
    ensures AreEntries(es[pos + 1..]) && IsObject(es[pos].key) && IsObject(es[pos].val)
    ensures es[pos].key < es[pos] && es[pos].val < es[pos]
    ensures WriteEntries(es[pos..], l)
         == Then(Write(es[pos].key, l), Then(Write(es[pos].val, l), WriteEntries(es[pos + 1..], l)))
  {
    hide Write, Then, IsObject;
    assert es[pos..][0] == es[pos] && es[pos..][1..] == es[pos + 1..];
  }

  // ---------------------------------------------------------------- encoder

  class Encoder {
    const long: LongWidth
    /** The encoded data so far. */
    var encoded: seq<Byte>

    constructor (long: LongWidth)
      ensures encoded == [] && this.long == long
    {
      this.long := long;
      encoded := [];
    }

    method GetEncodedData() returns (data: seq<Byte>)
      ensures data == encoded
    {
      data := encoded;
    }

    method Reset()
      modifies this
      ensures encoded == []
    {
      encoded := [];
    }

    method Append(bytes: seq<Byte>)
      modifies this
      ensures encoded == old(encoded) + bytes
    {
      encoded := encoded + bytes;
    }

    /** `write_int`: the argument is computed in Python, and conversion to uint64 may fail. */
    method WriteInt(n: int) returns (error: Option<WriteError>)
      modifies this
      ensures match WriteIntNumber(n)
              case None => error == Some(IntegerTooLarge) && encoded == old(encoded)
              case Some(m) => error == None && encoded == old(encoded) + ShortHead(NumberMajor(m), m.arg)
    {
      var major: Major, arg := 0, n;
      if n < 0 {
        major, arg := 1, -1 - n;
      }
      if arg >= TWO_TO_THE_64 {
        return Some(IntegerTooLarge);
      }
      Append(ShortHead(major, arg));
      return None;
    }

    method WritePyLong(n: int) returns (error: Option<WriteError>)
      modifies this
      ensures error == Write(PyInt(n), long).error
      ensures encoded == old(encoded) + Write(PyInt(n), long).bytes
    {
      var overflow := if n < LongMin(long) then -1 else if n > LongMax(long) then 1 else 0;
      if overflow == 0 {
        if n >= 0 {
          Append(ShortHead(0, n));
        } else {
          var unsigned := ToUint64(ToUint64(NegateLong(n, long)) - 1);
          Append(ShortHead(1, unsigned));
        }
      } else if overflow < 0 {
        var result := -n - 1;
        if result >= TWO_TO_THE_64 {
          return Some(IntegerTooLarge);
        }
        Append(ShortHead(1, result));
      } else {
        if n >= TWO_TO_THE_64 {
          return Some(IntegerTooLarge);
        }
        Append(ShortHead(0, n));
      }
      return None;
    }

    method WritePyList(items: seq<PyObject>) returns (error: Option<WriteError>)
      requires IsObject(PyList(items))
      modifies this
      ensures error == Write(PyList(items), long).error
      ensures encoded == old(encoded) + Write(PyList(items), long).bytes
      decreases items, 1
    {
      ghost var before := encoded;
      var size := |items|;
      Append(ShortHead(4, size));
      ghost var done := Written(ShortHead(4, size), None);
      assert items[0..] == items && items[size..] == [];
      var i := 0;
      while i < size
        invariant 0 <= i <= size
        invariant AreObjects(items[i..])
        invariant done.error.None? && encoded == before + done.bytes
        invariant Then(done, WriteAll(items[i..], long)) == Write(PyList(items), long)
      {
        hide Write, ShortHead, Then, IsObject;
        assert items[i..][0] == items[i] && items[i..][1..] == items[i + 1..];
        ghost var here := Write(items[i], long);
        ThenMoves(before, done, here, WriteAll(items[i + 1..], long));
        error := WritePyObject(items[i]);
        done := Then(done, here);
        if error.Some? {
          return;
        }
        i := i + 1;
      }
      return None;
    }

    method WritePyDict(entries: Entries) returns (error: Option<WriteError>)
      requires IsObject(PyDict(entries))
      modifies this
      ensures error == Write(PyDict(entries), long).error
      ensures encoded == old(encoded) + Write(PyDict(entries), long).bytes
      decreases entries, 1
    {
      ghost var before := encoded;
      var size := |entries|;
      Append(ShortHead(5, size));
      ghost var done := Written(ShortHead(5, size), None);
      assert entries[0..] == entries && entries[size..] == [];
      var pos := 0;
      while pos < size
        invariant 0 <= pos <= size
        invariant AreEntries(entries[pos..])
        invariant done.error.None? && encoded == before + done.bytes
        invariant Then(done, WriteEntries(entries[pos..], long)) == Write(PyDict(entries), long)
      {
        hide Write, ShortHead, Then, IsObject, WriteEntries, AreEntries;
        var e := entries[pos];
        WriteEntriesFrom(entries, pos, long);
        ghost var key, val := Write(e.key, long), Write(e.val, long);
        ghost var rest := WriteEntries(entries[pos + 1..], long);
        ThenMoves(before, done, key, Then(val, rest));
        error := WritePyObject(e.key);
        done := Then(done, key);
        if error.Some? {
          return;
        }
        ThenMoves(before, done, val, rest);
        error := WritePyObject(e.val);
        done := Then(done, val);
        if error.Some? {
          return;
        }
        pos := pos + 1;
      }
      return None;
    }

    /** `write_data_item`: everything written earlier stays where it is, also when the write fails. */
    method WritePyObject(v: PyObject) returns (error: Option<WriteError>)
      requires IsObject(v)
      modifies this
      ensures error == Write(v, long).error
      ensures encoded == old(encoded) + Write(v, long).bytes
      decreases v, 2
    {
      error := None;
      match v
      case PyNone => Append(ShortHead(7, 22));
      case PyInt(n) => error := WritePyLong(n);
      case PyFloat(bits) => Append(HeadBytes(7, Eight, bits));
      case PyBool(b) => Append(ShortHead(7, if b then 21 else 20));
      case PyBytes(b) => Append(ShortHead(2, |b|) + b);
      case PyStr(s) =>
        if Utf8.AllScalar(s) {
          var utf8 := Utf8.Encode(s);
          Append(ShortHead(3, |utf8|) + utf8);
        } else {
          error := Some(SurrogateInText);
        }
      case PyList(items) => error := WritePyList(items);
      case PyDict(entries) => error := WritePyDict(entries);
      case Other(_) => error := Some(UnsupportedType);
    }
  }
}
