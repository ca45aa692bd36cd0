/**
 The well-formedness check of Appendix C of RFC 8949, byte for byte, which is also what the documented
 `consume_next_whole_data_item` walks over; and its equivalence with the `Wire` grammar.
 */
module CborWellFormed {
  import opened Octets
  import opened CborElement
  import opened CborWire

  /** The outcome of `well_formed`: failure, an item of major type `mt` (99 when indefinite), or a break. */
  datatype Check = Malformed | Item(mt: int, rest: seq<Byte>) | BreakFound(rest: seq<Byte>)

  const INDEFINITE: int := 99

  function WellFormed(bs: seq<Byte>, breakable: bool): (r: Check)
    ensures r.Item? ==> |r.rest| < |bs|
    ensures r.BreakFound? ==> breakable && |r.rest| < |bs|
    decreases |bs|, 0
  {
    match ReadHead(bs)
    case NoHead => Malformed
    case Open(mt) => WellFormedIndefinite(mt, bs[1..], breakable)
    case Definite(mt, w, val) =>
      WrittenHeadOfRead(bs);
      Content(mt, w, val, bs[1 + Size(w)..])
  }

  /** What follows the head of a definite-length item. */
  function Content(mt: Major, w: Width, val: nat, bs: seq<Byte>): (r: Check)
    ensures !r.BreakFound?
    ensures r.Item? ==> r.mt == mt && |r.rest| <= |bs|
    decreases |bs|, 2
  {
    if mt == 2 || mt == 3 then
      if |bs| < val then Malformed else Item(mt, bs[val..])
    else if mt == 4 then Repeat(mt, val, bs)
    else if mt == 5 then Repeat(mt, 2 * val, bs)
    else if mt == 6 then Repeat(mt, 1, bs)
    else if mt == 7 && w == One && val < 32 then Malformed
    else Item(mt, bs)
  }

  function Repeat(mt: Major, n: nat, bs: seq<Byte>): (r: Check)
    ensures !r.BreakFound?
    ensures r.Item? ==> r.mt == mt && |r.rest| <= |bs|
    decreases |bs|, 1, n
  {
    if n == 0 then Item(mt, bs)
    else
      match WellFormed(bs, false)
      case Item(_, rest) => Repeat(mt, n - 1, rest)
      case _ => Malformed
  }

  function WellFormedIndefinite(mt: Major, bs: seq<Byte>, breakable: bool): (r: Check)
    ensures r.Item? ==> r.mt == INDEFINITE && |r.rest| <= |bs|
    ensures r.BreakFound? ==> breakable && |r.rest| <= |bs|
    decreases |bs|, 2
  {
    if mt == 2 || mt == 3 then ChunksUntilBreak(mt, bs)
    else if mt == 4 then ItemsUntilBreak(bs)
    else if mt == 5 then PairsUntilBreak(bs)
    else if mt == 7 && breakable then BreakFound(bs)
    else Malformed
  }

  function ChunksUntilBreak(mt: Major, bs: seq<Byte>): (r: Check)
    ensures !r.BreakFound?
    ensures r.Item? ==> r.mt == INDEFINITE && |r.rest| <= |bs|
    decreases |bs|, 1
  {
    match WellFormed(bs, true)
    case Malformed => Malformed
    case BreakFound(rest) => Item(INDEFINITE, rest)
    case Item(it, rest) => if it == mt then ChunksUntilBreak(mt, rest) else Malformed
  }

  function ItemsUntilBreak(bs: seq<Byte>): (r: Check)
    ensures !r.BreakFound?
    ensures r.Item? ==> r.mt == INDEFINITE && |r.rest| <= |bs|
    decreases |bs|, 1
  {
    match WellFormed(bs, true)
    case Malformed => Malformed
    case BreakFound(rest) => Item(INDEFINITE, rest)
    case Item(_, rest) => ItemsUntilBreak(rest)
  }

  function PairsUntilBreak(bs: seq<Byte>): (r: Check)
    ensures !r.BreakFound?
    ensures r.Item? ==> r.mt == INDEFINITE && |r.rest| <= |bs|
    decreases |bs|, 1
  {
    match WellFormed(bs, true)
    case Malformed => Malformed
    case BreakFound(rest) => Item(INDEFINITE, rest)
    case Item(_, rest) => ValueThenPairs(rest)
  }

  function ValueThenPairs(bs: seq<Byte>): (r: Check)
    ensures !r.BreakFound?
    ensures r.Item? ==> r.mt == INDEFINITE && |r.rest| <= |bs|
    decreases |bs|, 1
  {
    match WellFormed(bs, false)
    case Item(_, rest) => PairsUntilBreak(rest)
    case _ => Malformed
  }

  /** Consumes the next whole data item, or fails when there is none. */
  function ConsumeWhole(bs: seq<Byte>): Option<seq<Byte>> {
    match WellFormed(bs, false)
    case Item(_, rest) => Some(rest)
    case _ => None
  }

  // ---------------------------------------------- every spelling is accepted

  /** The major type that Appendix C returns for an item. */
  function MajorOf(x: Wire): int {
    match x
    case Scalar(major, _, _) => major
    case Text(isText, _) => StringMajor(isText)
    case Chunked(_, _) => INDEFINITE
    case Container(isMap, Counted(_), _) => ContainerMajor(isMap)
    case Container(_, UntilBreak, _) => INDEFINITE
    case Tagged(_, _, _) => 6
  }

  /** Behind a written head only the content is left to check, behind an open byte the pieces. */
  lemma AfterHead(mt: Major, w: Width, val: nat, body: seq<Byte>, breakable: bool)
    requires Fits(w, val)
    ensures WellFormed(HeadBytes(mt, w, val) + body, breakable) == Content(mt, w, val, body)
    ensures WellFormed([OpenByte(mt)] + body, breakable) == WellFormedIndefinite(mt, body, breakable)
  {
    hide HeadBytes, Content, WellFormedIndefinite;
    ReadWrittenHead(mt, w, val, body);
    NextOfOpen(mt, body);
  }

  lemma {:induction false} SpellingIsWellFormed(x: Wire, rest: seq<Byte>, breakable: bool)
    requires WellSpelled(x)
    ensures WellFormed(Spelling(x) + rest, breakable) == Item(MajorOf(x), rest)
    decreases x, 1
  {
    match x
    case Scalar(major, w, arg) =>
      AfterHead(major, w, arg, rest, breakable);
    case Text(isText, c) =>
      ChunkIsWellFormed(isText, c, rest, breakable);
    case Chunked(isText, cs) =>
      BrokenOff(StringMajor(isText), SpellChunks(isText, cs), rest);
      AfterHead(StringMajor(isText), Embedded, 0, SpellChunks(isText, cs) + ([BREAK] + rest), breakable);
      ChunksAreWellFormed(isText, cs, rest);
    case Container(isMap, framing, items) =>
      ContainerIsWellFormed(isMap, framing, items, rest, breakable);
    case Tagged(w, tag, content) =>
      AppendAssociates(HeadBytes(6, w, tag), Spelling(content), rest);
      AfterHead(6, w, tag, Spelling(content) + rest, breakable);
      SpellingIsWellFormed(content, rest, false);
      assert Repeat(6, 0, rest) == Item(6, rest);
  }

  lemma {:induction false} ContainerIsWellFormed(
    isMap: bool, framing: Framing, items: seq<Wire>, rest: seq<Byte>, breakable: bool)
    requires WellSpelled(Container(isMap, framing, items))
    ensures var x := Container(isMap, framing, items);
            WellFormed(Spelling(x) + rest, breakable) == Item(MajorOf(x), rest)
    decreases items, 1
  {
    hide WellFormed, HeadBytes, Repeat, ItemsUntilBreak, PairsUntilBreak;
    var mt := ContainerMajor(isMap);
    match framing
    case Counted(w) =>
      var n := Count(isMap, items);
      AppendAssociates(HeadBytes(mt, w, n), SpellAll(items), rest);
      AfterHead(mt, w, n, SpellAll(items) + rest, breakable);
      AllAreWellFormed(mt, items, rest);
    case UntilBreak =>
      BrokenOff(mt, SpellAll(items), rest);
      AfterHead(mt, Embedded, 0, SpellAll(items) + ([BREAK] + rest), breakable);
      if isMap {
        PairsAreWellFormed(items, rest);
      } else {
        ItemsAreWellFormed(items, rest);
      }
  }

  lemma ChunkIsWellFormed(isText: bool, c: Chunk, rest: seq<Byte>, breakable: bool)
    requires Fits(c.w, |c.payload|)
    ensures WellFormed(SpellChunk(isText, c) + rest, breakable) == Item(StringMajor(isText), rest)
  {
    var n := |c.payload|;
    AppendAssociates(HeadBytes(StringMajor(isText), c.w, n), c.payload, rest);
    AfterHead(StringMajor(isText), c.w, n, c.payload + rest, breakable);
    AppendSplits(c.payload, rest);
  }

  lemma {:induction false} ChunksAreWellFormed(isText: bool, cs: seq<Chunk>, rest: seq<Byte>)
    requires forall i :: 0 <= i < |cs| ==> Fits(cs[i].w, |cs[i].payload|)
    ensures ChunksUntilBreak(StringMajor(isText), SpellChunks(isText, cs) + ([BREAK] + rest))
         == Item(INDEFINITE, rest)
  {
    hide WellFormed, Content;
    if cs == [] {
      BreakIsFound(rest);
      assert SpellChunks(isText, cs) + ([BREAK] + rest) == [BREAK] + rest;
    } else {
      var tail := SpellChunks(isText, cs[1..]) + ([BREAK] + rest);
      SpellChunksSplits(isText, cs, [BREAK] + rest);
      ChunkIsWellFormed(isText, cs[0], tail, true);
      ChunksAreWellFormed(isText, cs[1..], rest);
    }
  }

  lemma BreakIsFound(rest: seq<Byte>)
    ensures WellFormed([BREAK] + rest, true) == BreakFound(rest)
  {
    assert ([BREAK] + rest)[1..] == rest;
  }

  lemma {:induction false} AllAreWellFormed(mt: Major, xs: seq<Wire>, rest: seq<Byte>)
    requires AllWellSpelled(xs)
    ensures Repeat(mt, |xs|, SpellAll(xs) + rest) == Item(mt, rest)
    decreases xs, 0
  {
    hide WellFormed, Content, Spelling, WellSpelled, MajorOf;
    if xs == [] {
      assert SpellAll(xs) + rest == rest;
    } else {
      SpellAllSplits(xs, rest);
      SpellingIsWellFormed(xs[0], SpellAll(xs[1..]) + rest, false);
      AllAreWellFormed(mt, xs[1..], rest);
    }
  }

  lemma {:induction false} ItemsAreWellFormed(xs: seq<Wire>, rest: seq<Byte>)
    requires AllWellSpelled(xs)
    ensures ItemsUntilBreak(SpellAll(xs) + ([BREAK] + rest)) == Item(INDEFINITE, rest)
    decreases xs, 0
  {
    hide WellFormed, Content, Spelling, WellSpelled, MajorOf;
    if xs == [] {
      BreakIsFound(rest);
      assert SpellAll(xs) + ([BREAK] + rest) == [BREAK] + rest;
    } else {
      var tail := SpellAll(xs[1..]) + ([BREAK] + rest);
      SpellAllSplits(xs, [BREAK] + rest);
      SpellingIsWellFormed(xs[0], tail, true);
      ItemsAreWellFormed(xs[1..], rest);
    }
  }

  lemma {:induction false} PairsAreWellFormed(xs: seq<Wire>, rest: seq<Byte>)
    requires AllWellSpelled(xs)
    ensures var bs := SpellAll(xs) + ([BREAK] + rest);
            (if |xs| % 2 == 0 then PairsUntilBreak(bs) else ValueThenPairs(bs)) == Item(INDEFINITE, rest)
    decreases xs, 0
  {
    hide WellFormed, Content, Spelling, WellSpelled, MajorOf;
    if xs == [] {
      BreakIsFound(rest);
      assert SpellAll(xs) + ([BREAK] + rest) == [BREAK] + rest;
    } else {
      var tail := SpellAll(xs[1..]) + ([BREAK] + rest);
      SpellAllSplits(xs, [BREAK] + rest);
      SpellingIsWellFormed(xs[0], tail, |xs| % 2 == 0);
      PairsAreWellFormed(xs[1..], rest);
    }
  }

  // ------------------------------------- everything accepted is a spelling

  /** Appendix C accepts nothing but spellings: the tree that was read. */
  lemma {:induction false} WellFormedIsSpelling(bs: seq<Byte>, breakable: bool) returns (x: Wire)
    requires WellFormed(bs, breakable).Item?
    ensures WellSpelled(x)
    ensures bs == Spelling(x) + WellFormed(bs, breakable).rest
    ensures MajorOf(x) == WellFormed(bs, breakable).mt
    decreases |bs|, 0
  {
    match ReadHead(bs)
    case Open(mt) =>
      assert bs == [OpenByte(mt)] + bs[1..];
      x := IndefiniteRead(mt, bs[1..], breakable);
    case Definite(mt, w, val) =>
      WrittenHeadOfRead(bs);
      x := ContentRead(mt, w, val, bs[1 + Size(w)..]);
  }

  lemma {:induction false} IndefiniteRead(mt: Major, body: seq<Byte>, breakable: bool) returns (x: Wire)
    requires WellFormedIndefinite(mt, body, breakable).Item?
    ensures WellSpelled(x) && MajorOf(x) == INDEFINITE
    ensures [OpenByte(mt)] + body == Spelling(x) + WellFormedIndefinite(mt, body, breakable).rest
    decreases |body|, 2
  {
    var rest := WellFormedIndefinite(mt, body, breakable).rest;
    if mt == 2 || mt == 3 {
      var cs := ChunksRead(mt == 3, body);
      x := Chunked(mt == 3, cs);
      BrokenOff(mt, SpellChunks(mt == 3, cs), rest);
    } else {
      var xs;
      if mt == 4 {
        xs := ItemsRead(body);
      } else {
        xs := PairsRead(body);
      }
      x := Container(mt == 5, UntilBreak, xs);
      BrokenOff(mt, SpellAll(xs), rest);
    }
  }

  lemma {:induction false} ContentRead(mt: Major, w: Width, val: nat, body: seq<Byte>) returns (x: Wire)
    requires Fits(w, val) && Content(mt, w, val, body).Item?
    ensures WellSpelled(x) && MajorOf(x) == mt
    ensures HeadBytes(mt, w, val) + body == Spelling(x) + Content(mt, w, val, body).rest
    decreases |body|, 2
  {
    hide WellFormed, HeadBytes, Repeat;
    var rest := Content(mt, w, val, body).rest;
    if mt == 2 || mt == 3 {
      x := Text(mt == 3, Chunk(w, body[..val]));
      assert body == body[..val] + body[val..];
      AppendAssociates(HeadBytes(mt, w, val), body[..val], rest);
    } else if mt == 4 || mt == 5 {
      var xs := AllRead(mt, if mt == 4 then val else 2 * val, body);
      x := Container(mt == 5, Counted(w), xs);
      AppendAssociates(HeadBytes(mt, w, val), SpellAll(xs), rest);
    } else if mt == 6 {
      var xs := AllRead(mt, 1, body);
      x := Tagged(w, val, xs[0]);
      assert SpellAll(xs) == Spelling(xs[0]) + SpellAll([]);
      AppendAssociates(HeadBytes(mt, w, val), Spelling(xs[0]), rest);
    } else {
      x := Scalar(mt, w, val);
    }
  }

  lemma {:induction false} AllRead(mt: Major, n: nat, bs: seq<Byte>) returns (xs: seq<Wire>)
    requires Repeat(mt, n, bs).Item?
    ensures |xs| == n && AllWellSpelled(xs)
    ensures bs == SpellAll(xs) + Repeat(mt, n, bs).rest
    decreases |bs|, 1, n
  {
    hide WellFormed, Content, Spelling, WellSpelled, MajorOf;
    if n == 0 {
      xs := [];
    } else {
      var x := WellFormedIsSpelling(bs, false);
      var ys := AllRead(mt, n - 1, WellFormed(bs, false).rest);
      xs := [x] + ys;
      SpellAllJoins(x, ys, Repeat(mt, n, bs).rest);
    }
  }

  lemma {:induction false} ItemsRead(bs: seq<Byte>) returns (xs: seq<Wire>)
    requires ItemsUntilBreak(bs).Item?
    ensures AllWellSpelled(xs)
    ensures bs == SpellAll(xs) + ([BREAK] + ItemsUntilBreak(bs).rest)
    decreases |bs|, 1
  {
    hide WellFormed, Content, Spelling, WellSpelled, MajorOf;
    if WellFormed(bs, true).BreakFound? {
      xs := [];
      BreakFoundIsBreak(bs);
    } else {
      var x := WellFormedIsSpelling(bs, true);
      var ys := ItemsRead(WellFormed(bs, true).rest);
      xs := [x] + ys;
      SpellAllJoins(x, ys, [BREAK] + ItemsUntilBreak(bs).rest);
    }
  }

  lemma {:induction false} PairsRead(bs: seq<Byte>) returns (xs: seq<Wire>)
    requires PairsUntilBreak(bs).Item?
    ensures AllWellSpelled(xs) && |xs| % 2 == 0
    ensures bs == SpellAll(xs) + ([BREAK] + PairsUntilBreak(bs).rest)
    decreases |bs|, 1
  {
    hide WellFormed, Content, Spelling, WellSpelled, MajorOf;
    if WellFormed(bs, true).BreakFound? {
      xs := [];
      BreakFoundIsBreak(bs);
    } else {
      var x := WellFormedIsSpelling(bs, true);
      var ys := ValueThenPairsRead(WellFormed(bs, true).rest);
      xs := [x] + ys;
      SpellAllJoins(x, ys, [BREAK] + PairsUntilBreak(bs).rest);
    }
  }

  lemma {:induction false} ValueThenPairsRead(bs: seq<Byte>) returns (xs: seq<Wire>)
    requires ValueThenPairs(bs).Item?
    ensures AllWellSpelled(xs) && |xs| % 2 == 1
    ensures bs == SpellAll(xs) + ([BREAK] + ValueThenPairs(bs).rest)
    decreases |bs|, 1
  {
    hide WellFormed, Content, Spelling, WellSpelled, MajorOf;
    var x := WellFormedIsSpelling(bs, false);
    var ys := PairsRead(WellFormed(bs, false).rest);
    xs := [x] + ys;
    SpellAllJoins(x, ys, [BREAK] + ValueThenPairs(bs).rest);
  }

  lemma {:induction false} ChunksRead(isText: bool, bs: seq<Byte>) returns (cs: seq<Chunk>)
    requires ChunksUntilBreak(StringMajor(isText), bs).Item?
    ensures forall i :: 0 <= i < |cs| ==> Fits(cs[i].w, |cs[i].payload|)
    ensures bs == SpellChunks(isText, cs) + ([BREAK] + ChunksUntilBreak(StringMajor(isText), bs).rest)
    decreases |bs|, 1
  {
    if WellFormed(bs, true).BreakFound? {
      cs := [];
      BreakFoundIsBreak(bs);
    } else {
      var x := WellFormedIsSpelling(bs, true);
      var ds := ChunksRead(isText, WellFormed(bs, true).rest);
      assert x.Text? && x.isText == isText;
      cs := [x.whole] + ds;
      assert cs[1..] == ds;
      SpellChunksSplits(isText, cs, [BREAK] + ChunksUntilBreak(StringMajor(isText), bs).rest);
    }
  }

  lemma BreakFoundIsBreak(bs: seq<Byte>)
    requires WellFormed(bs, true).BreakFound?
    ensures bs == [BREAK] + WellFormed(bs, true).rest
  {
    assert ReadHead(bs) == Open(7);
    assert bs == [bs[0]] + bs[1..];
  }
}
