/** CBOR is unambiguous: bytes that start with a spelling start with one spelling only. */
module CborUnique {
  import opened Octets
  import opened CborElement
  import opened CborWire

  /** The head an item starts with, and the bytes behind it. */
  function HeadOf(x: Wire): Head
    requires WellSpelled(x)
  {
    match x
    case Scalar(major, w, arg) => Definite(major, w, arg)
    case Text(isText, c) => Definite(StringMajor(isText), c.w, |c.payload|)
    case Chunked(isText, _) => Open(StringMajor(isText))
    case Container(isMap, Counted(w), items) => Definite(ContainerMajor(isMap), w, Count(isMap, items))
    case Container(isMap, UntilBreak, _) => Open(ContainerMajor(isMap))
    case Tagged(w, tag, _) => Definite(6, w, tag)
  }

  function HeadSize(h: Head): nat {
    if h.Definite? then 1 + Size(h.w) else 1
  }

  function Behind(x: Wire): seq<Byte>
    requires WellSpelled(x)
  {
    match x
    case Scalar(_, _, _) => []
    case Text(_, c) => c.payload
    case Chunked(isText, cs) => SpellChunks(isText, cs) + [BREAK]
    case Container(_, Counted(_), items) => SpellAll(items)
    case Container(_, UntilBreak, items) => SpellAll(items) + [BREAK]
    case Tagged(_, _, content) => Spelling(content)
  }

  function WriteHead(h: Head): seq<Byte>
    requires h.Open? || (h.Definite? && Fits(h.w, h.arg))
  {
    if h.Open? then [OpenByte(h.major)] else HeadBytes(h.major, h.w, h.arg)
  }

  lemma SpellingSplits(x: Wire)
    requires WellSpelled(x)
    ensures HeadOf(x).Open? || (HeadOf(x).Definite? && Fits(HeadOf(x).w, HeadOf(x).arg))
    ensures Spelling(x) == WriteHead(HeadOf(x)) + Behind(x)
  {
    hide HeadBytes;
    match x
    case Scalar(major, w, arg) => assert HeadBytes(major, w, arg) + [] == HeadBytes(major, w, arg);
    case Chunked(isText, cs) => AppendAssociates([OpenByte(StringMajor(isText))], SpellChunks(isText, cs), [BREAK]);
    case Container(isMap, _, items) => AppendAssociates([OpenByte(ContainerMajor(isMap))], SpellAll(items), [BREAK]);
    case _ =>
  }

  lemma HeadOfSpelling(x: Wire, rest: seq<Byte>)
    requires WellSpelled(x)
    ensures var bs := Spelling(x) + rest;
            && ReadHead(bs) == HeadOf(x)
            && HeadSize(HeadOf(x)) <= |bs|
            && bs[HeadSize(HeadOf(x))..] == Behind(x) + rest
  {
    SpellingSplits(x);
    hide Spelling, HeadBytes, Behind, HeadOf;
    var h := HeadOf(x);
    AppendAssociates(WriteHead(h), Behind(x), rest);
    if h.Definite? {
      ReadWrittenHead(h.major, h.w, h.arg, Behind(x) + rest);
    } else {
      NextOfOpen(h.major, Behind(x) + rest);
    }
  }

  /** The head tells everything but what follows it. */
  lemma SameHead(x: Wire, y: Wire)
    requires WellSpelled(x) && WellSpelled(y) && HeadOf(x) == HeadOf(y)
    ensures match x
            case Scalar(_, _, _) => y == x
            case Text(isText, c) =>
              y.Text? && y.isText == isText && y.whole.w == c.w && |y.whole.payload| == |c.payload|
            case Chunked(isText, _) => y.Chunked? && y.isText == isText
            case Container(isMap, framing, items) =>
              && y.Container? && y.isMap == isMap && y.framing == framing
              && (framing.Counted? ==> |y.items| == |items|)
            case Tagged(w, tag, _) => y.Tagged? && y.w == w && y.tag == tag
  {
    hide AllWellSpelled, Limit;
  }

  /** An item is its head and what stands behind it, and so are the two sides of an equation. */
  lemma SameBehind(x: Wire, y: Wire, a: seq<Byte>, b: seq<Byte>)
    requires WellSpelled(x) && WellSpelled(y) && Spelling(x) + a == Spelling(y) + b
    ensures HeadOf(x) == HeadOf(y) && Behind(x) + a == Behind(y) + b
  {
    hide *;
    HeadOfSpelling(x, a);
    HeadOfSpelling(y, b);
  }

  lemma {:induction false} SpellingIsUnique(x: Wire, y: Wire, a: seq<Byte>, b: seq<Byte>)
    requires WellSpelled(x) && WellSpelled(y)
    requires Spelling(x) + a == Spelling(y) + b
    ensures x == y && a == b
    decreases x, 1
  {
    SameBehind(x, y, a, b);
    SameHead(x, y);
    hide Spelling, HeadOf, SpellAll, SpellChunks, AllWellSpelled;
    match x
    case Scalar(_, _, _) =>
      assert [] + a == a && [] + b == b;
    case Text(_, c) =>
      AppendSplits(c.payload, a);
      AppendSplits(y.whole.payload, b);
    case Chunked(isText, cs) =>
      AppendAssociates(SpellChunks(isText, cs), [BREAK], a);
      AppendAssociates(SpellChunks(isText, y.chunks), [BREAK], b);
      ChunksAreUnique(isText, cs, y.chunks, a, b);
    case Container(_, framing, items) =>
      if framing.Counted? {
        AllAreUnique(items, y.items, a, b);
      } else {
        AppendAssociates(SpellAll(items), [BREAK], a);
        AppendAssociates(SpellAll(y.items), [BREAK], b);
        AllAreUnique(items, y.items, [BREAK] + a, [BREAK] + b);
        AppendSplits([BREAK], a);
        AppendSplits([BREAK], b);
      }
    case Tagged(_, _, content) =>
      SpellingIsUnique(content, y.content, a, b);
  }

  predicate StartsWithBreak(bs: seq<Byte>) {
    bs != [] && bs[0] == BREAK
  }

  /** Sequences of items are told apart by their number, or by a break behind both. */
  lemma {:induction false} AllAreUnique(xs: seq<Wire>, ys: seq<Wire>, a: seq<Byte>, b: seq<Byte>)
    requires AllWellSpelled(xs) && AllWellSpelled(ys)
    requires |xs| == |ys| || (StartsWithBreak(a) && StartsWithBreak(b))
    requires SpellAll(xs) + a == SpellAll(ys) + b
    ensures xs == ys && a == b
    decreases xs, 0
  {
    hide Spelling, WellSpelled;
    if xs == [] || ys == [] {
      assert xs == [] ==> SpellAll(xs) + a == a;
      assert ys == [] ==> SpellAll(ys) + b == b;
    } else {
      SpellAllSplits(xs, a);
      SpellAllSplits(ys, b);
      SpellingIsUnique(xs[0], ys[0], SpellAll(xs[1..]) + a, SpellAll(ys[1..]) + b);
      AllAreUnique(xs[1..], ys[1..], a, b);
      assert xs == [xs[0]] + xs[1..] && ys == [ys[0]] + ys[1..];
    }
  }

  lemma {:induction false} ChunksAreUnique(
    isText: bool, cs: seq<Chunk>, ds: seq<Chunk>, a: seq<Byte>, b: seq<Byte>)
    requires forall i :: 0 <= i < |cs| ==> Fits(cs[i].w, |cs[i].payload|)
    requires forall i :: 0 <= i < |ds| ==> Fits(ds[i].w, |ds[i].payload|)
    requires SpellChunks(isText, cs) + ([BREAK] + a) == SpellChunks(isText, ds) + ([BREAK] + b)
    ensures cs == ds && a == b
  {
    hide SpellChunk, Spelling;
    if cs == [] || ds == [] {
      assert cs == [] ==> SpellChunks(isText, cs) + ([BREAK] + a) == [BREAK] + a;
      assert ds == [] ==> SpellChunks(isText, ds) + ([BREAK] + b) == [BREAK] + b;
      AppendSplits([BREAK], a);
      AppendSplits([BREAK], b);
      ChunksStart(isText, cs, [BREAK] + a);
      ChunksStart(isText, ds, [BREAK] + b);
    } else {
      var s, t := SpellChunks(isText, cs[1..]) + ([BREAK] + a), SpellChunks(isText, ds[1..]) + ([BREAK] + b);
      SpellChunksSplits(isText, cs, [BREAK] + a);
      SpellChunksSplits(isText, ds, [BREAK] + b);
      ChunkIsUnique(isText, cs[0], ds[0], s, t);
      ChunksAreUnique(isText, cs[1..], ds[1..], a, b);
      assert cs == [cs[0]] + cs[1..] && ds == [ds[0]] + ds[1..];
    }
  }

  lemma ChunksStart(isText: bool, cs: seq<Chunk>, tail: seq<Byte>)
    requires forall i :: 0 <= i < |cs| ==> Fits(cs[i].w, |cs[i].payload|)
    ensures cs != [] ==> !StartsWithBreak(SpellChunks(isText, cs) + tail)
  {
    if cs != [] {
      SpellChunksSplits(isText, cs, tail);
      assert SpellChunk(isText, cs[0]) == Spelling(Text(isText, cs[0]));
    }
  }

  lemma ChunkIsUnique(isText: bool, c: Chunk, d: Chunk, a: seq<Byte>, b: seq<Byte>)
    requires Fits(c.w, |c.payload|) && Fits(d.w, |d.payload|)
    requires SpellChunk(isText, c) + a == SpellChunk(isText, d) + b
    ensures c == d && a == b
  {
    var x, y := Text(isText, c), Text(isText, d);
    HeadOfSpelling(x, a);
    HeadOfSpelling(y, b);
    AppendSplits(c.payload, a);
    AppendSplits(d.payload, b);
  }
}
