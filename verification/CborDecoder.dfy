/**
 The decoder as it runs: a cursor over the source, a `current_depth` that goes up and down, and loops
 that fill lists, dicts and strings. Each method is proved to do what `CborDecoderSpec` says, and to
 leave `current_depth` as it found it on every exit.
 */
module CborDecoder {
  import opened Octets
  import opened PyObjects
  import opened CborElement
  import opened CborWire
  import opened CborDecoderSpec
  import opened CborDecoderProofs
  import Utf8

  /** A Python object, or the exception raised. */
  datatype Result = Value(v: PyObject) | Raised(error: Error)

  predicate Agrees(r: Result, o: Outcome, remaining: seq<Byte>) {
    remaining == o.rest && r == if o.Ok? then Value(o.value) else Raised(o.error)
  }

  class Decoder {
    const src: seq<Byte>
    var pos: nat
    var currentDepth: nat

    ghost predicate Valid()
      reads this
    {
      pos <= |src| && currentDepth <= MAX_DECODE_DEPTH
    }

    function Remaining(): seq<Byte>
      requires pos <= |src|
      reads this
    {
      src[pos..]
    }

    constructor (src: seq<Byte>)
      ensures Valid() && this.src == src && Remaining() == src && currentDepth == 0
    {
      this.src := src;
      pos := 0;
      currentDepth := 0;
    }

    method GetRemainingLength() returns (n: nat)
      requires Valid()
      ensures n == |src| - pos
    {
      n := |src| - pos;
    }

    /** `get_remaining_bytes`: with the bytes consumed so far it is always the whole source. */
    method GetRemainingBytes() returns (bytes: seq<Byte>)
      requires Valid()
      ensures bytes == Remaining() && src[..pos] + bytes == src
    {
      var remaining := GetRemainingLength();
      if remaining <= 0 {
        return [];
      }
      return src[|src| - remaining..];
    }

    /** Looks at the next element without moving. */
    method PeekType() returns (next: Next)
      requires Valid()
      ensures next == NextElement(Remaining())
    {
      next := NextElement(Remaining());
    }

    /** Steps over an element that has been looked at. */
    method Advance(len: nat)
      requires Valid() && len <= |Remaining()|
      modifies this`pos
      ensures Valid() && pos == old(pos) + len && Remaining() == old(Remaining())[len..]
    {
      pos := pos + len;
    }

    method ConsumeNextSingleElement() returns (ok: bool)
      requires Valid()
      modifies this`pos
      ensures Valid() && ok == NextElement(old(Remaining())).Next?
      ensures Remaining() == if ok then old(Remaining())[NextElement(old(Remaining())).len..] else old(Remaining())
    {
      var next := PeekType();
      if next.Next? {
        Advance(next.len);
      }
      ok := next.Next?;
    }

    method PopNextString(isText: bool) returns (r: Result)
      requires Valid()
      modifies this`pos
      ensures Valid() && old(pos) <= pos
      ensures Agrees(r, PopString(isText, old(Remaining())), Remaining())
    {
      var next := PeekType();
      if next.NoElement? {
        return Raised(InvalidCbor);
      }
      if !(if isText then next.e.TextStr? else next.e.ByteStr?) {
        return Raised(UnexpectedType);
      }
      Advance(next.len);
      var payload := next.e.bytes;
      if |payload| > SSIZE_MAX {
        return Raised(TooLarge);
      }
      if !isText {
        return Value(PyBytes(payload));
      }
      var decoded := Utf8.Decode(payload);
      if decoded.None? {
        return Raised(BadText);
      }
      return Value(PyStr(decoded.value));
    }

    /** The loop over chunks behind `inf_bytes_to_py_bytes` and `inf_string_to_py_str`. */
    method PopNextIndefString(isText: bool) returns (r: Result)
      requires Valid()
      modifies this`pos
      ensures Valid() && old(pos) <= pos
      ensures Agrees(r, PopIndefString(isText, old(Remaining())), Remaining())
    {
      var next := PeekType();
      if next.NoElement? {
        return Raised(InvalidCbor);
      }
      if !(if isText then next.e.IndefTextStart? else next.e.IndefBytesStart?) {
        return Raised(UnexpectedType);
      }
      Advance(next.len);
      ghost var body := Remaining();
      next := PeekType();
      if next.NoElement? {
        return Raised(InvalidCbor);
      }
      var result := if isText then PyStr([]) else PyBytes([]);
      ghost var empty := result;
      while !next.e.Break?
        invariant Valid() && old(pos) <= pos
        invariant next == NextElement(Remaining()) && next.Next?
        invariant if isText then result.PyStr? else result.PyBytes?
        invariant PopChunks(isText, result, Remaining()) == PopChunks(isText, empty, body)
        decreases |src| - pos
      {
        var part := PopNextString(isText);
        if part.Raised? {
          return part;
        }
        result := Join(isText, result, part.v);
        next := PeekType();
        if next.NoElement? {
          return Raised(InvalidCbor);
        }
      }
      Advance(next.len);
      return Value(result);
    }

    method PopNextTag() returns (r: Result)
      requires Valid()
      modifies this
      ensures Valid() && old(pos) <= pos && currentDepth == old(currentDepth)
      ensures Agrees(r, PopTag(old(Remaining()), old(currentDepth)), Remaining())
      decreases |src| - pos, 1
    {
      var next := PeekType();
      if next.NoElement? {
        return Raised(InvalidCbor);
      }
      if !next.e.TagStart? {
        return Raised(UnexpectedType);
      }
      Advance(next.len);
      if next.e.n != EPOCH_TIME {
        return Raised(UnsupportedTag);
      }
      next := PeekType();
      if next.NoElement? {
        return Raised(InvalidCbor);
      }
      if !IsNumber(next.e) {
        return Raised(UnexpectedType);
      }
      r := PopNextDataItem();
    }

    method PopNextList() returns (r: Result)
      requires Valid()
      modifies this
      ensures Valid() && old(pos) <= pos && currentDepth == old(currentDepth)
      ensures Agrees(r, PopList(old(Remaining()), old(currentDepth)), Remaining())
      decreases |src| - pos, 1
    {
      var next := PeekType();
      if next.NoElement? {
        return Raised(InvalidCbor);
      }
      if next.e.ArrayStart? {
        var n := next.e.n;
        Advance(next.len);
        if n > SSIZE_MAX {
          return Raised(TooLarge);
        }
        r := FillCounted(n);
      } else if next.e.IndefArrayStart? {
        Advance(next.len);
        r := FillUntilBreak();
      } else {
        return Raised(UnexpectedType);
      }
    }

    /** The counted loop of `PopNextList`. */
    method FillCounted(n: nat) returns (r: Result)
      requires Valid()
      modifies this
      ensures Valid() && old(pos) <= pos && currentDepth == old(currentDepth)
      ensures Agrees(r, PopItems(n, [], old(Remaining()), old(currentDepth)), Remaining())
      decreases |src| - pos, 5
    {
      hide PopItem;
      ghost var start := Remaining();
      var list := [];
      for i := 0 to n
        invariant Valid() && old(pos) <= pos && currentDepth == old(currentDepth)
        invariant PopItems(n - i, list, Remaining(), currentDepth) == PopItems(n, [], start, currentDepth)
      {
        var item := PopNextDataItem();
        if item.Raised? {
          return item;
        }
        list := list + [item.v];
      }
      return Value(PyList(list));
    }

    /** The until-break loop of `PopNextList`; the first peek is unchecked, as in the source. */
    method FillUntilBreak() returns (r: Result)
      requires Valid()
      modifies this
      ensures Valid() && old(pos) <= pos && currentDepth == old(currentDepth)
      ensures Agrees(r, PopItemsUntilBreak([], old(Remaining()), old(currentDepth)), Remaining())
      decreases |src| - pos, 5
    {
      hide PopItem, NextElement;
      ghost var start := Remaining();
      var list := [];
      var outType := IndefArrayStart;
      var next := PeekType();
      if next.Next? {
        outType := next.e;
      }
      while !outType.Break?
        invariant Valid() && old(pos) <= pos && currentDepth == old(currentDepth)
        invariant outType.Break? <==> AtBreak(Remaining())
        invariant PopItemsUntilBreak(list, Remaining(), currentDepth) == PopItemsUntilBreak([], start, currentDepth)
        decreases |src| - pos
      {
        ghost var here := Remaining();
        var item := PopNextDataItem();
        if item.Raised? {
          return item;
        }
        list := list + [item.v];
        DepthLeft(here, currentDepth);
        next := PeekType();
        if next.NoElement? {
          NoItemAtEnd(list, Remaining(), currentDepth);
          return Raised(InvalidCbor);
        }
        outType := next.e;
      }
      NextIsBreak(Remaining());
      var _ := ConsumeNextSingleElement();
      return Value(PyList(list));
    }

    method PopNextMap() returns (r: Result)
      requires Valid()
      modifies this
      ensures Valid() && old(pos) <= pos && currentDepth == old(currentDepth)
      ensures Agrees(r, PopDict(old(Remaining()), old(currentDepth)), Remaining())
      decreases |src| - pos, 1
    {
      var next := PeekType();
      if next.NoElement? {
        return Raised(InvalidCbor);
      }
      if next.e.MapStart? {
        var n := next.e.n;
        Advance(next.len);
        if n > SSIZE_MAX {
          return Raised(TooLarge);
        }
        r := FillMapCounted(n);
      } else if next.e.IndefMapStart? {
        Advance(next.len);
        r := FillMapUntilBreak();
      } else {
        return Raised(UnexpectedType);
      }
    }

    method FillMapCounted(n: nat) returns (r: Result)
      requires Valid()
      modifies this
      ensures Valid() && old(pos) <= pos && currentDepth == old(currentDepth)
      ensures Agrees(r, PopEntries(n, [], old(Remaining()), old(currentDepth)), Remaining())
      decreases |src| - pos, 5
    {
      hide PopItem, PopEntry, SetItem;
      ghost var start := Remaining();
      var dict: Entries := [];
      for i := 0 to n
        invariant Valid() && old(pos) <= pos && currentDepth == old(currentDepth)
        invariant PopEntries(n - i, dict, Remaining(), currentDepth) == PopEntries(n, [], start, currentDepth)
      {
        var turn := PopNextEntry(dict);
        if turn.Stop? {
          return Raised(turn.error);
        }
        dict := turn.entries;
      }
      return Value(PyDict(dict));
    }

    method FillMapUntilBreak() returns (r: Result)
      requires Valid()
      modifies this
      ensures Valid() && old(pos) <= pos && currentDepth == old(currentDepth)
      ensures Agrees(r, PopEntriesUntilBreak([], old(Remaining()), old(currentDepth)), Remaining())
      decreases |src| - pos, 5
    {
      hide PopItem, PopEntry, SetItem, NextElement;
      ghost var start := Remaining();
      var dict: Entries := [];
      var outType := IndefMapStart;
      var next := PeekType();
      if next.Next? {
        outType := next.e;
      }
      while !outType.Break?
        invariant Valid() && old(pos) <= pos && currentDepth == old(currentDepth)
        invariant outType.Break? <==> AtBreak(Remaining())
        invariant PopEntriesUntilBreak(dict, Remaining(), currentDepth) == PopEntriesUntilBreak([], start, currentDepth)
        decreases |src| - pos
      {
        ghost var here, had := Remaining(), dict;
        var turn := PopNextEntry(dict);
        if turn.Stop? {
          return Raised(turn.error);
        }
        dict := turn.entries;
        EntryDepthLeft(had, here, currentDepth);
        next := PeekType();
        if next.NoElement? {
          NoEntryAtEnd(dict, Remaining(), currentDepth);
          return Raised(InvalidCbor);
        }
        outType := next.e;
      }
      NextIsBreak(Remaining());
      var _ := ConsumeNextSingleElement();
      return Value(PyDict(dict));
    }

    /** One turn of either map loop: the value is popped even when the key failed. */
    method PopNextEntry(dict: Entries) returns (turn: Turn)
      requires Valid()
      modifies this
      ensures Valid() && old(pos) <= pos && currentDepth == old(currentDepth)
      ensures turn == PopEntry(dict, old(Remaining()), currentDepth) && turn.rest == Remaining()
      decreases |src| - pos, 4
    {
      hide PopItem, SetItem;
      var key := PopNextDataItem();
      var val := PopNextDataItem();
      if val.Raised? {
        return Stop(val.error, Remaining());
      }
      if key.Raised? {
        return Stop(key.error, Remaining());
      }
      if !Hashable(key.v) {
        return Stop(UnhashableKey, Remaining());
      }
      return Go(SetItem(dict, key.v, val.v), Remaining());
    }

    /** The arms of `PopNextDataItem` that take one element. */
    method PopNextScalar(e: Element, len: nat) returns (r: Result)
      requires Valid() && NextElement(Remaining()) == Next(e, len) && ScalarMeaning(e).Some?
      modifies this`pos
      ensures Valid() && old(pos) <= pos && Remaining() == old(Remaining())[len..]
      ensures r == Value(ScalarMeaning(e).value)
    {
      Advance(len);
      match e
      case UInt(n) => return Value(PyInt(n));
      case NegInt(n) => return Value(PyInt(-1 - n));
      case Float(bits) => return Value(PyFloat(bits));
      case Bool(b) => return Value(PyBool(b));
      case Null => return Value(PyNone);
      case Undefined => return Value(PyNone);
    }

    /** The arms of `PopNextDataItem` by the next element, with the depth already raised. */
    method PopNextElement(e: Element, len: nat) returns (r: Result)
      requires Valid() && NextElement(Remaining()) == Next(e, len)
      modifies this
      ensures Valid() && old(pos) <= pos && currentDepth == old(currentDepth)
      ensures Agrees(r, PopElement(e, len, old(Remaining()), old(currentDepth)), Remaining())
      decreases |src| - pos, 2
    {
      hide PopString, PopIndefString, PopList, PopDict, PopTag, NextElement;
      match e
      case ByteStr(_) => r := PopNextString(false);
      case TextStr(_) => r := PopNextString(true);
      case MapStart(_) => r := PopNextMap();
      case IndefMapStart => r := PopNextMap();
      case ArrayStart(_) => r := PopNextList();
      case IndefArrayStart => r := PopNextList();
      case IndefBytesStart => r := PopNextIndefString(false);
      case IndefTextStart => r := PopNextIndefString(true);
      case TagStart(_) => r := PopNextTag();
      case Break => r := Raised(UnexpectedType);
      case _ => r := PopNextScalar(e, len);
    }

    /** `pop_next_data_item`. */
    method PopNextDataItem() returns (r: Result)
      requires Valid()
      modifies this
      ensures Valid() && old(pos) <= pos && currentDepth == old(currentDepth)
      ensures Agrees(r, PopItem(old(Remaining()), old(currentDepth)), Remaining())
      decreases |src| - pos, 3
    {
      hide PopElement, NextElement;
      if currentDepth >= MAX_DECODE_DEPTH {
        return Raised(RecursionLimit);
      }
      currentDepth := currentDepth + 1;
      var next := PeekType();
      if next.NoElement? {
        r := Raised(InvalidCbor);
      } else {
        r := PopNextElement(next.e, next.len);
      }
      currentDepth := currentDepth - 1;
    }
  }

  lemma DepthLeft(bs: seq<Byte>, depth: nat)
    requires PopItem(bs, depth).Ok?
    ensures depth < MAX_DECODE_DEPTH
  {
  }

  lemma EntryDepthLeft(done: Entries, bs: seq<Byte>, depth: nat)
    requires PopEntry(done, bs, depth).Go?
    ensures depth < MAX_DECODE_DEPTH
  {
    DepthLeft(bs, depth);
  }

  /** With no element left, the next turn of an until-break loop fails without moving. */
  lemma NoItemAtEnd(done: seq<PyObject>, bs: seq<Byte>, depth: nat)
    requires depth < MAX_DECODE_DEPTH && NextElement(bs).NoElement?
    ensures PopItemsUntilBreak(done, bs, depth) == Err(InvalidCbor, bs)
  {
    assert PopItem(bs, depth) == Err(InvalidCbor, bs);
  }

  lemma NoEntryAtEnd(done: Entries, bs: seq<Byte>, depth: nat)
    requires depth < MAX_DECODE_DEPTH && NextElement(bs).NoElement?
    ensures PopEntriesUntilBreak(done, bs, depth) == Err(InvalidCbor, bs)
  {
    assert PopItem(bs, depth) == Err(InvalidCbor, bs);
    assert PopEntry(done, bs, depth) == Stop(InvalidCbor, bs);
  }
}
