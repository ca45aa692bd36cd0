/**
 The many spellings of one item: any argument width that fits, definite or indefinite arrays and maps,
 strings whole or in chunks (text cut at character boundaries), at every level independently. They all
 mean the same object and nest equally deep.
 */
module CborRespelling {
  import opened Octets
  import opened PyObjects
  import opened CborElement
  import opened CborWire
  import opened CborDecoderSpec
  import opened CborDecoderProofs
  import Utf8

  function Payload(cs: seq<Chunk>): seq<Byte> {
    if cs == [] then [] else cs[0].payload + Payload(cs[1..])
  }

  predicate IsString(x: Wire) {
    x.Text? || x.Chunked?
  }

  function WholePayload(x: Wire): seq<Byte>
    requires IsString(x)
  {
    if x.Text? then x.whole.payload else Payload(x.chunks)
  }

  /** Every chunk of a text string holds whole characters. */
  predicate CutAtCharacters(x: Wire)
    requires IsString(x)
  {
    x.Chunked? && x.isText ==>
      forall i :: 0 <= i < |x.chunks| ==> Utf8.Decode(x.chunks[i].payload).Some?
  }

  predicate Respelled(x: Wire, y: Wire)
    requires WellSpelled(x) && WellSpelled(y)
    decreases x, 1
  {
    if x.Scalar? then
      && y.Scalar? && ScalarElement(x.major, x.w, x.arg) == ScalarElement(y.major, y.w, y.arg)
      && (ScalarElement(x.major, x.w, x.arg).None? ==> x.major == y.major && x.arg == y.arg)
    else if IsString(x) then
      && IsString(y) && x.isText == y.isText
      && WholePayload(x) == WholePayload(y) && CutAtCharacters(x) && CutAtCharacters(y)
    else if x.Container? then
      y.Container? && x.isMap == y.isMap && AllRespelled(x.items, y.items)
    else
      y.Tagged? && x.tag == y.tag && Respelled(x.content, y.content)
  }

  predicate AllRespelled(xs: seq<Wire>, ys: seq<Wire>)
    requires AllWellSpelled(xs) && AllWellSpelled(ys)
    decreases xs, 0
  {
    |xs| == |ys| && (xs != [] ==> Respelled(xs[0], ys[0]) && AllRespelled(xs[1..], ys[1..]))
  }

  // ------------------------------------------------------------------ sizes

  lemma {:induction false} ChunksFillTheirSpelling(isText: bool, cs: seq<Chunk>)
    requires forall i :: 0 <= i < |cs| ==> Fits(cs[i].w, |cs[i].payload|)
    ensures |Payload(cs)| <= |SpellChunks(isText, cs)|
  {
    if cs != [] {
      ChunksFillTheirSpelling(isText, cs[1..]);
    }
  }

  lemma {:induction false} ItemsFillTheirSpelling(xs: seq<Wire>)
    requires AllWellSpelled(xs)
    ensures |xs| <= |SpellAll(xs)|
  {
    if xs != [] {
      ItemsFillTheirSpelling(xs[1..]);
    }
  }

  // ---------------------------------------------------------------- meaning

  /** Chunks that hold whole characters mean what their joined payload means. */
  lemma {:induction false} ChunksMeanTheirPayload(isText: bool, cs: seq<Chunk>)
    requires |Payload(cs)| <= SSIZE_MAX
    ensures ChunksMeaning(isText, cs).Some? <==>
            (isText ==> forall i :: 0 <= i < |cs| ==> Utf8.Decode(cs[i].payload).Some?)
    ensures ChunksMeaning(isText, cs).Some? ==>
            && (isText ==> Utf8.Decode(Payload(cs)).Some?)
            && ChunksMeaning(isText, cs) == StringMeaning(isText, Payload(cs))
  {
    if cs != [] {
      ChunksMeanTheirPayload(isText, cs[1..]);
      if ChunksMeaning(isText, cs).Some? && isText {
        Utf8.DecodeOfConcat(cs[0].payload, Payload(cs[1..]));
      }
    }
  }

  lemma {:induction false} StringMeansItsPayload(x: Wire)
    requires WellSpelled(x) && IsString(x) && CutAtCharacters(x) && |Spelling(x)| <= SSIZE_MAX
    ensures Meaning(x) == StringMeaning(x.isText, WholePayload(x))
  {
    if x.Chunked? {
      ChunksFillTheirSpelling(x.isText, x.chunks);
      ChunksMeanTheirPayload(x.isText, x.chunks);
    }
  }

  /** Respelling keeps the meaning, and whether there is one, and the depth. */
  lemma {:induction false} RespellingMeansTheSame(x: Wire, y: Wire)
    requires WellSpelled(x) && WellSpelled(y) && Respelled(x, y)
    requires |Spelling(x)| <= SSIZE_MAX && |Spelling(y)| <= SSIZE_MAX
    ensures Meaning(x) == Meaning(y) && Nesting(x) == Nesting(y)
    decreases x, 1
  {
    if IsString(x) {
      StringMeansItsPayload(x);
      StringMeansItsPayload(y);
    } else if x.Container? {
      ItemsFillTheirSpelling(x.items);
      ItemsFillTheirSpelling(y.items);
      AllMeanTheSame(x.items, y.items);
    } else if x.Tagged? {
      RespellingMeansTheSame(x.content, y.content);
    }
  }

  lemma {:induction false} AllMeanTheSame(xs: seq<Wire>, ys: seq<Wire>)
    requires AllWellSpelled(xs) && AllWellSpelled(ys) && AllRespelled(xs, ys)
    requires |SpellAll(xs)| <= SSIZE_MAX && |SpellAll(ys)| <= SSIZE_MAX
    ensures MeaningOfAll(xs) == MeaningOfAll(ys) && NestingOfAll(xs) == NestingOfAll(ys)
    decreases xs, 0
  {
    hide Spelling, Meaning, Nesting, WellSpelled, Respelled;
    if xs != [] {
      RespellingMeansTheSame(xs[0], ys[0]);
      AllMeanTheSame(xs[1..], ys[1..]);
    }
  }

  /** The decoder cannot tell spellings apart: same success, same value, same bytes left, same depth. */
  lemma RespellingDecodesTheSame(x: Wire, y: Wire, rest: seq<Byte>, depth: nat)
    requires WellSpelled(x) && WellSpelled(y) && Respelled(x, y)
    requires |Spelling(x)| <= SSIZE_MAX && |Spelling(y)| <= SSIZE_MAX
    ensures var r, s := PopItem(Spelling(x) + rest, depth), PopItem(Spelling(y) + rest, depth);
            && (r.Ok? <==> s.Ok?)
            && (r.Ok? ==> r == s && s.rest == rest)
  {
    hide PopItem, Meaning, Nesting, Respelled, Spelling;
    RespellingMeansTheSame(x, y);
    ItemOfSpelling(x, rest, depth);
    ItemOfSpelling(y, rest, depth);
  }

  // ----------------------------------------------- what may be respelled

  /** Integers at any two widths they fit in. */
  lemma IntegerWidths(major: Major, n: nat, w: Width, w': Width)
    requires (major == 0 || major == 1) && Fits(w, n) && Fits(w', n)
    ensures WellSpelled(Scalar(major, w, n)) && WellSpelled(Scalar(major, w', n))
    ensures Respelled(Scalar(major, w, n), Scalar(major, w', n))
  {
    hide Limit;
  }

  /** A whole string and any chunks of it, at any widths, text being cut at character boundaries. */
  lemma StringChunks(isText: bool, c: Chunk, cs: seq<Chunk>)
    requires WellSpelled(Text(isText, c)) && WellSpelled(Chunked(isText, cs)) && Payload(cs) == c.payload
    requires isText ==> forall i :: 0 <= i < |cs| ==> Utf8.Decode(cs[i].payload).Some?
    ensures Respelled(Text(isText, c), Chunked(isText, cs)) && Respelled(Chunked(isText, cs), Text(isText, c))
  {
    hide Utf8.Decode;
  }

  /** Arrays and maps with any two framings around respelled items, and tags at any two widths. */
  lemma Framings(isMap: bool, f: Framing, g: Framing, xs: seq<Wire>, ys: seq<Wire>)
    requires WellSpelled(Container(isMap, f, xs)) && WellSpelled(Container(isMap, g, ys)) && AllRespelled(xs, ys)
    ensures Respelled(Container(isMap, f, xs), Container(isMap, g, ys))
  {
    hide AllRespelled, AllWellSpelled;
  }

  // ------------------------------------------------- the all-indefinite form

  /** Opens every container and wraps every string in one chunk, at every level. */
  function Opened(x: Wire): (y: Wire)
    requires WellSpelled(x)
    decreases x, 1
  {
    match x
    case Text(isText, c) => Chunked(isText, if |c.payload| == 0 then [] else [c])
    case Container(isMap, _, items) => Container(isMap, UntilBreak, OpenedAll(items))
    case Tagged(w, tag, content) => Tagged(w, tag, Opened(content))
    case _ => x
  }

  function OpenedAll(xs: seq<Wire>): (ys: seq<Wire>)
    requires AllWellSpelled(xs)
    ensures |ys| == |xs|
    decreases xs, 0
  {
    if xs == [] then [] else [Opened(xs[0])] + OpenedAll(xs[1..])
  }

  /** Every item the decoder understands has an all-indefinite spelling. */
  lemma {:induction false} OpenedIsRespelled(x: Wire)
    requires WellSpelled(x) && Meaning(x).Some?
    ensures WellSpelled(Opened(x)) && Respelled(x, Opened(x))
    decreases x, 1
  {
    match x
    case Text(isText, c) =>
      assert Payload([c]) == c.payload + Payload([]);
    case Chunked(isText, cs) =>
      ChunksAreCut(isText, cs);
    case Container(_, _, items) => AllOpenedAreRespelled(items);
    case Tagged(_, _, content) => OpenedIsRespelled(content);
    case _ =>
  }

  lemma {:induction false} ChunksAreCut(isText: bool, cs: seq<Chunk>)
    requires ChunksMeaning(isText, cs).Some?
    ensures isText ==> forall i :: 0 <= i < |cs| ==> Utf8.Decode(cs[i].payload).Some?
  {
    if cs != [] {
      ChunksAreCut(isText, cs[1..]);
    }
  }

  lemma {:induction false} AllOpenedAreRespelled(xs: seq<Wire>)
    requires AllWellSpelled(xs) && MeaningOfAll(xs).Some?
    ensures AllWellSpelled(OpenedAll(xs)) && AllRespelled(xs, OpenedAll(xs))
    decreases xs, 0
  {
    hide Meaning, Respelled, WellSpelled, Opened;
    if xs != [] {
      OpenedIsRespelled(xs[0]);
      AllOpenedAreRespelled(xs[1..]);
      assert OpenedAll(xs)[1..] == OpenedAll(xs[1..]);
    }
  }
}
