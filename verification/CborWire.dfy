/**
 The concrete syntax of CBOR data items, as a reference that owes nothing to the decoder: every
 well-formed item is the spelling of one `Wire` tree. `Spelling` gives its bytes, `Meaning` the Python
 object it stands for when the decoder supports it, `Nesting` the depth it takes to read.
 */
module CborWire {
  import opened Octets
  import opened PyFloats
  import opened PyObjects
  import opened CborElement
  import Utf8

  /** A definite-length piece of a string: its argument width and its payload. */
  datatype Chunk = Chunk(w: Width, payload: seq<Byte>)

  /** How a string, array or map ends: by a count of the given width, or by a break. */
  datatype Framing = Counted(w: Width) | UntilBreak

  /** In a map, keys and values alternate in `items`. */
  datatype Wire =
    | Scalar(major: Major, w: Width, arg: nat)
    | Text(isText: bool, whole: Chunk)
    | Chunked(isText: bool, chunks: seq<Chunk>)
    | Container(isMap: bool, framing: Framing, items: seq<Wire>)
    | Tagged(w: Width, tag: nat, content: Wire)

  function Count(isMap: bool, items: seq<Wire>): nat {
    if isMap then |items| / 2 else |items|
  }

  predicate WellSpelled(x: Wire)
    decreases x, 1
  {
    match x
    case Scalar(major, w, arg) =>
      && (major == 0 || major == 1 || major == 7)
      && Fits(w, arg)
      && (major == 7 && w == One ==> arg >= 32)
    case Text(_, c) => Fits(c.w, |c.payload|)
    case Chunked(_, cs) => forall i :: 0 <= i < |cs| ==> Fits(cs[i].w, |cs[i].payload|)
    case Container(isMap, framing, items) =>
      && (isMap ==> |items| % 2 == 0)
      && (framing.Counted? ==> Fits(framing.w, Count(isMap, items)))
      && AllWellSpelled(items)
    case Tagged(w, tag, content) => Fits(w, tag) && WellSpelled(content)
  }

  predicate AllWellSpelled(xs: seq<Wire>)
    decreases xs, 0
  {
    xs == [] || (WellSpelled(xs[0]) && AllWellSpelled(xs[1..]))
  }

  // --------------------------------------------------------------- spelling

  function StringMajor(isText: bool): Major { if isText then 3 else 2 }
  function ContainerMajor(isMap: bool): Major { if isMap then 5 else 4 }

  function SpellChunk(isText: bool, c: Chunk): seq<Byte>
    requires Fits(c.w, |c.payload|)
  {
    HeadBytes(StringMajor(isText), c.w, |c.payload|) + c.payload
  }

  function SpellChunks(isText: bool, cs: seq<Chunk>): seq<Byte>
    requires forall i :: 0 <= i < |cs| ==> Fits(cs[i].w, |cs[i].payload|)
  {
    if cs == [] then [] else SpellChunk(isText, cs[0]) + SpellChunks(isText, cs[1..])
  }

  function Spelling(x: Wire): (r: seq<Byte>)
    requires WellSpelled(x)
    ensures r != [] && r[0] != BREAK
    decreases x, 1
  {
    match x
    case Scalar(major, w, arg) => HeadBytes(major, w, arg)
    case Text(isText, c) => SpellChunk(isText, c)
    case Chunked(isText, cs) => [OpenByte(StringMajor(isText))] + SpellChunks(isText, cs) + [BREAK]
    case Container(isMap, Counted(w), items) =>
      HeadBytes(ContainerMajor(isMap), w, Count(isMap, items)) + SpellAll(items)
    case Container(isMap, UntilBreak, items) =>
      [OpenByte(ContainerMajor(isMap))] + SpellAll(items) + [BREAK]
    case Tagged(w, tag, content) => HeadBytes(6, w, tag) + Spelling(content)
  }

  function SpellAll(xs: seq<Wire>): seq<Byte>
    requires AllWellSpelled(xs)
    decreases xs, 0
  {
    if xs == [] then [] else Spelling(xs[0]) + SpellAll(xs[1..])
  }

  // ---------------------------------------------------------------- meaning

  /** A bytes or str object from one payload; text must be UTF-8. */
  function StringMeaning(isText: bool, payload: seq<Byte>): Option<PyObject> {
    if |payload| > SSIZE_MAX then None
    else if !isText then Some(PyBytes(payload))
    else
      match Utf8.Decode(payload)
      case None => None
      case Some(s) => Some(PyStr(s))
  }

  /** Chunk by chunk: every chunk of a text string must be UTF-8 by itself. */
  function ChunksMeaning(isText: bool, cs: seq<Chunk>): (r: Option<PyObject>)
    ensures r.Some? ==> if isText then r.value.PyStr? else r.value.PyBytes?
  {
    if cs == [] then Some(if isText then PyStr([]) else PyBytes([]))
    else
      match StringMeaning(isText, cs[0].payload)
      case None => None
      case Some(first) =>
        match ChunksMeaning(isText, cs[1..])
        case None => None
        case Some(rest) => Some(Join(isText, first, rest))
  }

  function Join(isText: bool, a: PyObject, b: PyObject): PyObject
    requires if isText then a.PyStr? && b.PyStr? else a.PyBytes? && b.PyBytes?
  {
    if isText then PyStr(a.chars + b.chars) else PyBytes(a.bytes + b.bytes)
  }

  function ScalarMeaning(e: Element): Option<PyObject> {
    match e
    case UInt(n) => Some(PyInt(n))
    case NegInt(n) => Some(PyInt(-1 - n))
    case Float(bits) => Some(PyFloat(bits))
    case Bool(b) => Some(PyBool(b))
    case Null => Some(PyNone)
    case Undefined => Some(PyNone)
    case _ => None
  }

  function ScalarElement(major: Major, w: Width, arg: nat): Option<Element>
    requires Fits(w, arg)
  {
    if major == 0 then Some(UInt(arg))
    else if major == 1 then Some(NegInt(arg))
    else if major == 7 then SimpleElement(w, arg)
    else None
  }

  predicate IsNumber(e: Element) {
    e.UInt? || e.NegInt? || e.Float?
  }

  const EPOCH_TIME: nat := 1

  /**
   The object an item stands for, or `None` where the decoder has no object for it: unassigned simple
   values, text that is not UTF-8, counts above PY_SSIZE_T_MAX, unhashable keys, tags other than the
   epoch time, and an epoch time that is not a number.
   */
  function Meaning(x: Wire): Option<PyObject>
    requires WellSpelled(x)
    decreases x, 1
  {
    match x
    case Scalar(major, w, arg) =>
      (match ScalarElement(major, w, arg)
       case None => None
       case Some(e) => ScalarMeaning(e))
    case Text(isText, c) => StringMeaning(isText, c.payload)
    case Chunked(isText, cs) => ChunksMeaning(isText, cs)
    case Container(isMap, framing, items) =>
      if framing.Counted? && Count(isMap, items) > SSIZE_MAX then None
      else
        (match MeaningOfAll(items)
         case None => None
         case Some(vs) =>
           if !isMap then Some(PyList(vs))
           else
             match SetItems([], vs)
             case None => None
             case Some(es) => Some(PyDict(es)))
    case Tagged(_, tag, content) =>
      if tag == EPOCH_TIME && content.Scalar? && IsNumeric(content) then Meaning(content) else None
  }

  predicate IsNumeric(x: Wire)
    requires x.Scalar? && WellSpelled(x)
  {
    var e := ScalarElement(x.major, x.w, x.arg);
    e.Some? && IsNumber(e.value)
  }

  function MeaningOfAll(xs: seq<Wire>): (r: Option<seq<PyObject>>)
    requires AllWellSpelled(xs)
    ensures r.Some? ==> |r.value| == |xs|
    decreases xs, 0
  {
    if xs == [] then Some([])
    else
      match Meaning(xs[0])
      case None => None
      case Some(v) =>
        match MeaningOfAll(xs[1..])
        case None => None
        case Some(vs) => Some([v] + vs)
  }

  // ---------------------------------------------------------------- nesting

  function Nesting(x: Wire): (r: nat)
    ensures r >= 1
    decreases x, 1
  {
    match x
    case Container(_, _, items) => 1 + NestingOfAll(items)
    case Tagged(_, _, content) => 1 + Nesting(content)
    case _ => 1
  }

  function NestingOfAll(xs: seq<Wire>): nat
    decreases xs, 0
  {
    if xs == [] then 0 else Max(Nesting(xs[0]), NestingOfAll(xs[1..]))
  }

  // -------------------------------------------------- sequences of items

  lemma SpellAllSplits(xs: seq<Wire>, tail: seq<Byte>)
    requires xs != [] && AllWellSpelled(xs)
    ensures SpellAll(xs) + tail == Spelling(xs[0]) + (SpellAll(xs[1..]) + tail)
  {
    AppendAssociates(Spelling(xs[0]), SpellAll(xs[1..]), tail);
  }

  lemma SpellAllJoins(x: Wire, xs: seq<Wire>, tail: seq<Byte>)
    requires WellSpelled(x) && AllWellSpelled(xs)
    ensures AllWellSpelled([x] + xs)
    ensures Spelling(x) + (SpellAll(xs) + tail) == SpellAll([x] + xs) + tail
  {
    assert ([x] + xs)[1..] == xs;
    SpellAllSplits([x] + xs, tail);
  }

  lemma SpellChunksSplits(isText: bool, cs: seq<Chunk>, tail: seq<Byte>)
    requires cs != [] && forall i :: 0 <= i < |cs| ==> Fits(cs[i].w, |cs[i].payload|)
    ensures SpellChunks(isText, cs) + tail == SpellChunk(isText, cs[0]) + (SpellChunks(isText, cs[1..]) + tail)
  {
    AppendAssociates(SpellChunk(isText, cs[0]), SpellChunks(isText, cs[1..]), tail);
  }

  /** A broken-off item: its opening byte, its pieces, and the break, before whatever follows. */
  lemma BrokenOff(major: Major, body: seq<Byte>, rest: seq<Byte>)
    ensures [OpenByte(major)] + body + [BREAK] + rest == [OpenByte(major)] + (body + ([BREAK] + rest))
  {
  }

  // --------------------------------------------- what the next element shows

  lemma NextOfScalar(x: Wire, rest: seq<Byte>)
    requires x.Scalar? && WellSpelled(x)
    ensures NextElement(Spelling(x) + rest)
         == (match ScalarElement(x.major, x.w, x.arg)
             case None => NoElement
             case Some(e) => Next(e, 1 + Size(x.w)))
    ensures (Spelling(x) + rest)[1 + Size(x.w)..] == rest
  {
    ReadWrittenHead(x.major, x.w, x.arg, rest);
  }

  lemma NextOfChunk(isText: bool, c: Chunk, rest: seq<Byte>)
    requires Fits(c.w, |c.payload|)
    ensures NextElement(SpellChunk(isText, c) + rest)
         == Next(if isText then TextStr(c.payload) else ByteStr(c.payload), |SpellChunk(isText, c)|)
    ensures (SpellChunk(isText, c) + rest)[|SpellChunk(isText, c)|..] == rest
  {
    var n := |c.payload|;
    var head := HeadBytes(StringMajor(isText), c.w, n);
    var bs := SpellChunk(isText, c) + rest;
    assert bs == head + (c.payload + rest);
    ReadWrittenHead(StringMajor(isText), c.w, n, c.payload + rest);
    assert bs[|head|..|head| + n] == c.payload;
  }

  lemma NextOfOpen(major: Major, rest: seq<Byte>)
    ensures NextElement([OpenByte(major)] + rest)
         == (match OpenElement(major) case None => NoElement case Some(e) => Next(e, 1))
    ensures ([OpenByte(major)] + rest)[1..] == rest
  {
  }

  lemma NextOfBreak(rest: seq<Byte>)
    ensures NextElement([BREAK] + rest) == Next(Break, 1)
    ensures ([BREAK] + rest)[1..] == rest
  {
    assert BREAK == OpenByte(7);
    NextOfOpen(7, rest);
  }

  lemma NextIsBreak(bs: seq<Byte>)
    ensures NextElement(bs).Next? && NextElement(bs).e.Break? <==> bs != [] && bs[0] == BREAK
    ensures bs != [] && bs[0] == BREAK ==> NextElement(bs) == Next(Break, 1)
  {
    if ReadHead(bs).Definite? {
      WrittenHeadOfRead(bs);
    }
  }
}
