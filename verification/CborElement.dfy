/**
 The element layer of CBOR: heads and their arguments (sections 3 and 3.1 of RFC 8949), shortest
 arguments when encoding (section 4.1), and the single elements a decoder can look at next.
 */
module CborElement {
  import opened Octets
  import opened PyFloats

  /** Where the argument of a head is: inside the initial byte, or in 1, 2, 4 or 8 bytes after it. */
  datatype Width = Embedded | One | Two | Four | Eight

  function Size(w: Width): nat {
    match w
    case Embedded => 0
    case One => 1
    case Two => 2
    case Four => 4
    case Eight => 8
  }

  function Limit(w: Width): nat {
    match w
    case Embedded => 24
    case One => 0x100
    case Two => 0x1_0000
    case Four => 0x1_0000_0000
    case Eight => 0x1_0000_0000_0000_0000
  }

  predicate Fits(w: Width, n: nat) {
    n < Limit(w)
  }

  /** The encoder always picks the shortest argument that can hold the value. */
  function Shortest(n: nat): (w: Width)
    requires n < TWO_TO_THE_64
    ensures Fits(w, n)
    ensures forall w' :: Fits(w', n) ==> Size(w) <= Size(w')
  {
    if n < 24 then Embedded
    else if n < 0x100 then One
    else if n < 0x1_0000 then Two
    else if n < 0x1_0000_0000 then Four
    else Eight
  }

  function BigEndian(n: nat, size: nat): (r: seq<Byte>)
    ensures |r| == size
  {
    if size == 0 then [] else BigEndian(n / 256, size - 1) + [n % 256]
  }

  function Unsigned(bs: seq<Byte>): nat {
    if bs == [] then 0 else Unsigned(bs[..|bs| - 1]) * 256 + bs[|bs| - 1]
  }

  function Pow256(k: nat): nat {
    if k == 0 then 1 else 256 * Pow256(k - 1)
  }

  lemma {:induction false} UnsignedOfBigEndian(n: nat, size: nat)
    requires n < Pow256(size)
    ensures Unsigned(BigEndian(n, size)) == n
  {
    if size == 0 {
    } else {
      UnsignedOfBigEndian(n / 256, size - 1);
      var bs := BigEndian(n, size);
      assert bs[..|bs| - 1] == BigEndian(n / 256, size - 1);
    }
  }

  lemma {:induction false} BigEndianOfUnsigned(bs: seq<Byte>)
    ensures Unsigned(bs) < Pow256(|bs|)
    ensures BigEndian(Unsigned(bs), |bs|) == bs
  {
    if bs == [] {
    } else {
      BigEndianOfUnsigned(bs[..|bs| - 1]);
    }
  }

  lemma WidthHolds(w: Width)
    ensures w != Embedded ==> Limit(w) == Pow256(Size(w))
  {
    assert Pow256(1) == 0x100 && Pow256(2) == 0x1_0000;
    assert Pow256(3) == 0x100_0000 && Pow256(4) == 0x1_0000_0000;
    assert Pow256(5) == 0x100_0000_0000 && Pow256(6) == 0x1_0000_0000_0000;
    assert Pow256(7) == 0x100_0000_0000_0000;
  }

  // ------------------------------------------------------------------ heads

  function Info(w: Width, n: nat): nat
    requires Fits(w, n)
  {
    match w
    case Embedded => n
    case One => 24
    case Two => 25
    case Four => 26
    case Eight => 27
  }

  type Major = m: int | 0 <= m < 8

  /** A head as it is written: initial byte, then the argument in network byte order. */
  function HeadBytes(major: Major, w: Width, n: nat): (r: seq<Byte>)
    requires Fits(w, n)
    ensures |r| == 1 + Size(w)
  {
    [major * 32 + Info(w, n)] + BigEndian(n, Size(w))
  }

  /** The initial byte of an indefinite-length item, or the break code when `major` is 7. */
  function OpenByte(major: Major): Byte {
    major * 32 + 31
  }

  const BREAK: Byte := 0xFF

  datatype Head =
    | NoHead                                   // no input left, or a reserved additional information
    | Definite(major: Major, w: Width, arg: nat)
    | Open(major: Major)                       // additional information 31

  function ReadArgument(major: Major, w: Width, bs: seq<Byte>): (h: Head)
    requires w != Embedded
  {
    if |bs| < 1 + Size(w) then NoHead else Definite(major, w, Unsigned(bs[1..1 + Size(w)]))
  }

  function ReadHead(bs: seq<Byte>): (h: Head) {
    if bs == [] then NoHead
    else
      var major, info := bs[0] / 32, bs[0] % 32;
      if info < 24 then Definite(major, Embedded, info)
      else if info == 24 then ReadArgument(major, One, bs)
      else if info == 25 then ReadArgument(major, Two, bs)
      else if info == 26 then ReadArgument(major, Four, bs)
      else if info == 27 then ReadArgument(major, Eight, bs)
      else if info == 31 then Open(major)
      else NoHead
  }

  lemma InitialByte(major: Major, w: Width, n: nat)
    requires Fits(w, n)
    ensures (major * 32 + Info(w, n)) / 32 == major && (major * 32 + Info(w, n)) % 32 == Info(w, n)
  {
  }

  /** A written head is read back whatever follows it, at every width that can hold the argument. */
  lemma ReadWrittenHead(major: Major, w: Width, n: nat, rest: seq<Byte>)
    requires Fits(w, n)
    ensures ReadHead(HeadBytes(major, w, n) + rest) == Definite(major, w, n)
    ensures (HeadBytes(major, w, n) + rest)[1 + Size(w)..] == rest
  {
    InitialByte(major, w, n);
    hide BigEndian, Unsigned, Pow256;
    var bs := HeadBytes(major, w, n) + rest;
    assert bs[0] == major * 32 + Info(w, n);
    if w != Embedded {
      assert bs[1..1 + Size(w)] == BigEndian(n, Size(w));
      WidthHolds(w);
      UnsignedOfBigEndian(n, Size(w));
    }
  }

  /** Every head that is read was written by `HeadBytes`. */
  lemma WrittenHeadOfRead(bs: seq<Byte>)
    requires ReadHead(bs).Definite?
    ensures var Definite(major, w, n) := ReadHead(bs);
            && Fits(w, n)
            && 1 + Size(w) <= |bs|
            && bs == HeadBytes(major, w, n) + bs[1 + Size(w)..]
  {
    var Definite(major, w, n) := ReadHead(bs);
    if w != Embedded {
      BigEndianOfUnsigned(bs[1..1 + Size(w)]);
      WidthHolds(w);
    }
    assert bs == [bs[0]] + bs[1..1 + Size(w)] + bs[1 + Size(w)..];
  }

  // --------------------------------------------------------------- elements

  /** What the decoder can meet next, one constructor for each `AwsCborType`. */
  datatype Element =
    | UInt(n: nat) | NegInt(n: nat) | Float(bits: Bits64)
    | ByteStr(bytes: seq<Byte>) | TextStr(bytes: seq<Byte>)
    | ArrayStart(n: nat) | MapStart(n: nat) | TagStart(n: nat)
    | Bool(b: bool) | Null | Undefined | Break
    | IndefBytesStart | IndefTextStart | IndefArrayStart | IndefMapStart

  /** The next element and the number of bytes it takes, or nothing when the bytes are not one. */
  datatype Next = NoElement | Next(e: Element, len: nat)

  /** The elements of major type 7; unassigned simple values have no `AwsCborType`. */
  function SimpleElement(w: Width, n: nat): (r: Option<Element>)
    requires Fits(w, n)
  {
    match w
    case Embedded =>
      if n == 20 then Some(Bool(false))
      else if n == 21 then Some(Bool(true))
      else if n == 22 then Some(Null)
      else if n == 23 then Some(Undefined)
      else None
    case One => None
    case Two => Some(Float(WidenHalf(n)))
    case Four => Some(Float(WidenSingle(n)))
    case Eight => Some(Float(n))
  }

  lemma SimpleIsScalar(w: Width, n: nat)
    requires Fits(w, n) && SimpleElement(w, n).Some?
    ensures var e := SimpleElement(w, n).value; e.Float? || e.Bool? || e.Null? || e.Undefined?
    ensures w != One
  {
    hide WidenHalf, WidenSingle;
  }

  function OpenElement(major: Major): Option<Element> {
    if major == 2 then Some(IndefBytesStart)
    else if major == 3 then Some(IndefTextStart)
    else if major == 4 then Some(IndefArrayStart)
    else if major == 5 then Some(IndefMapStart)
    else if major == 7 then Some(Break)
    else None
  }

  function NextElement(bs: seq<Byte>): (r: Next)
    ensures r.Next? ==> 1 <= r.len <= |bs|
  {
    match ReadHead(bs)
    case NoHead => NoElement
    case Open(major) =>
      (match OpenElement(major)
       case None => NoElement
       case Some(e) => Next(e, 1))
    case Definite(major, w, n) =>
      WrittenHeadOfRead(bs);
      var len := 1 + Size(w);
      if major == 0 then Next(UInt(n), len)
      else if major == 1 then Next(NegInt(n), len)
      else if major == 2 || major == 3 then
        if |bs| < len + n then NoElement
        else Next(if major == 2 then ByteStr(bs[len..len + n]) else TextStr(bs[len..len + n]), len + n)
      else if major == 4 then Next(ArrayStart(n), len)
      else if major == 5 then Next(MapStart(n), len)
      else if major == 6 then Next(TagStart(n), len)
      else
        match SimpleElement(w, n)
        case None => NoElement
        case Some(e) => Next(e, len)
  }
}
