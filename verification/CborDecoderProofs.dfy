/**
 The decoder against the reference grammar. On the spelling of an item it returns exactly the meaning
 of that item and the bytes behind it, or an error when there is no meaning or the nesting is too deep;
 and it accepts nothing but spellings.
 */
module CborDecoderProofs {
  import opened Octets
  import opened PyObjects
  import opened CborElement
  import opened CborWire
  import opened CborWellFormed
  import opened CborDecoderSpec
  import Utf8

  /** The outcome owed to an item of meaning `m` that `fits` the depth and is followed by `rest`. */
  ghost predicate Owed(r: Outcome, m: Option<PyObject>, fits: bool, rest: seq<Byte>) {
    if m.Some? && fits then r == Ok(m.value, rest)
    else r.Err? && (m.Some? ==> r.error == RecursionLimit)
  }

  // ---------------------------------------------------------------- strings

  lemma StringOfSpelling(isText: bool, c: Chunk, rest: seq<Byte>)
    requires Fits(c.w, |c.payload|)
    ensures PopString(isText, SpellChunk(isText, c) + rest) == StringOutcome(isText, c.payload, rest)
  {
    NextOfChunk(isText, c, rest);
  }

  lemma {:induction false} ChunksOfSpelling(isText: bool, done: PyObject, cs: seq<Chunk>, rest: seq<Byte>)
    requires if isText then done.PyStr? else done.PyBytes?
    requires forall i :: 0 <= i < |cs| ==> Fits(cs[i].w, |cs[i].payload|)
    ensures var r := PopChunks(isText, done, SpellChunks(isText, cs) + ([BREAK] + rest));
            match ChunksMeaning(isText, cs)
            case None => r.Err?
            case Some(v) => r == Ok(Join(isText, done, v), rest)
    decreases |cs|
  {
    hide NextElement, PopString, SpellChunk, Utf8.Decode;
    var bs := SpellChunks(isText, cs) + ([BREAK] + rest);
    if cs == [] {
      NextOfBreak(rest);
      assert bs == [BREAK] + rest;
      if isText {
        assert done.chars + [] == done.chars;
      } else {
        assert done.bytes + [] == done.bytes;
      }
    } else {
      var tail := SpellChunks(isText, cs[1..]) + ([BREAK] + rest);
      SpellChunksSplits(isText, cs, [BREAK] + rest);
      NextOfChunk(isText, cs[0], tail);
      StringOfSpelling(isText, cs[0], tail);
      var m := StringMeaning(isText, cs[0].payload);
      if m.Some? {
        ChunksOfSpelling(isText, Join(isText, done, m.value), cs[1..], rest);
        if ChunksMeaning(isText, cs[1..]).Some? {
          JoinAssociates(isText, done, m.value, ChunksMeaning(isText, cs[1..]).value);
        }
      }
    }
  }

  lemma JoinAssociates(isText: bool, a: PyObject, b: PyObject, c: PyObject)
    requires if isText then a.PyStr? && b.PyStr? && c.PyStr? else a.PyBytes? && b.PyBytes? && c.PyBytes?
    ensures Join(isText, Join(isText, a, b), c) == Join(isText, a, Join(isText, b, c))
  {
    if isText {
      AppendAssociates(a.chars, b.chars, c.chars);
    } else {
      AppendAssociates(a.bytes, b.bytes, c.bytes);
    }
  }

  // ------------------------------------------------------------------ items

  /** Below the depth limit, popping an item is the work of the function chosen by its first element. */
  lemma Dispatch(bs: seq<Byte>, depth: nat)
    requires depth < MAX_DECODE_DEPTH
    ensures match NextElement(bs)
            case NoElement => PopItem(bs, depth) == Err(InvalidCbor, bs)
            case Next(e, len) =>
              && (ScalarMeaning(e).Some? ==> PopItem(bs, depth) == Ok(ScalarMeaning(e).value, bs[len..]))
              && (e.ByteStr? || e.TextStr? ==> PopItem(bs, depth) == PopString(e.TextStr?, bs))
              && (e.IndefBytesStart? || e.IndefTextStart? ==>
                    PopItem(bs, depth) == PopIndefString(e.IndefTextStart?, bs))
              && (e.ArrayStart? || e.IndefArrayStart? ==> PopItem(bs, depth) == PopList(bs, depth + 1))
              && (e.MapStart? || e.IndefMapStart? ==> PopItem(bs, depth) == PopDict(bs, depth + 1))
              && (e.TagStart? ==> PopItem(bs, depth) == PopTag(bs, depth + 1))
              && (e.Break? ==> PopItem(bs, depth).Err?)
  {
    hide NextElement, PopString, PopIndefString, PopList, PopDict, PopTag;
  }

  lemma ScalarOfSpelling(x: Wire, rest: seq<Byte>, depth: nat)
    requires x.Scalar? && WellSpelled(x) && depth < MAX_DECODE_DEPTH
    ensures Owed(PopItem(Spelling(x) + rest, depth), Meaning(x), true, rest)
  {
    hide NextElement, PopItem;
    Dispatch(Spelling(x) + rest, depth);
    NextOfScalar(x, rest);
  }

  lemma TextOfSpelling(isText: bool, c: Chunk, rest: seq<Byte>, depth: nat)
    requires Fits(c.w, |c.payload|) && depth < MAX_DECODE_DEPTH
    ensures Owed(PopItem(SpellChunk(isText, c) + rest, depth), StringMeaning(isText, c.payload), true, rest)
  {
    Dispatch(SpellChunk(isText, c) + rest, depth);
    NextOfChunk(isText, c, rest);
    StringOfSpelling(isText, c, rest);
    hide PopItem, PopString, NextElement, SpellChunk, Utf8.Decode;
  }

  lemma ChunkedOfSpelling(isText: bool, cs: seq<Chunk>, rest: seq<Byte>, depth: nat)
    requires WellSpelled(Chunked(isText, cs)) && depth < MAX_DECODE_DEPTH
    ensures Owed(PopItem(Spelling(Chunked(isText, cs)) + rest, depth), ChunksMeaning(isText, cs), true, rest)
  {
    var body := SpellChunks(isText, cs) + ([BREAK] + rest);
    var bs := Spelling(Chunked(isText, cs)) + rest;
    BrokenOff(StringMajor(isText), SpellChunks(isText, cs), rest);
    assert bs == [OpenByte(StringMajor(isText))] + body;
    hide Spelling, SpellChunks, NextElement, PopItem, PopChunks, ChunksMeaning;
    NextOfOpen(StringMajor(isText), body);
    Dispatch(bs, depth);
    ChunksOfSpelling(isText, if isText then PyStr([]) else PyBytes([]), cs, rest);
    if ChunksMeaning(isText, cs).Some? {
      JoinNothing(isText, ChunksMeaning(isText, cs).value);
    }
  }

  /** A container is an item one level deeper than its direct entry point reads it. */
  lemma ContainerIsItem(isMap: bool, framing: Framing, items: seq<Wire>, rest: seq<Byte>, depth: nat)
    requires WellSpelled(Container(isMap, framing, items)) && depth < MAX_DECODE_DEPTH
    ensures var bs := Spelling(Container(isMap, framing, items)) + rest;
            PopItem(bs, depth) == if isMap then PopDict(bs, depth + 1) else PopList(bs, depth + 1)
  {
    hide PopItem, PopDict, PopList, NextElement, Spelling, BodyOf;
    Dispatch(Spelling(Container(isMap, framing, items)) + rest, depth);
    ContainerStarts(isMap, framing, items, rest);
  }

  lemma TooDeep(bs: seq<Byte>, depth: nat)
    requires depth >= MAX_DECODE_DEPTH
    ensures PopItem(bs, depth) == Err(RecursionLimit, bs)
  {
  }

  /** The master lemma: what popping does to the spelling of an item, whatever follows it. */
  lemma {:induction false} ItemOfSpelling(x: Wire, rest: seq<Byte>, depth: nat)
    requires WellSpelled(x)
    ensures Owed(PopItem(Spelling(x) + rest, depth), Meaning(x), depth + Nesting(x) <= MAX_DECODE_DEPTH, rest)
    decreases x, 2
  {
    hide NextElement, PopItem, PopList, PopDict, SpellChunk, SpellChunks, SpellAll, MeaningOfAll, NestingOfAll;
    if depth >= MAX_DECODE_DEPTH {
      TooDeep(Spelling(x) + rest, depth);
    } else {
      match x
      case Scalar(_, _, _) =>
        hide Spelling, Meaning;
        ScalarOfSpelling(x, rest, depth);
      case Text(isText, c) =>
        hide StringMeaning;
        TextOfSpelling(isText, c, rest, depth);
      case Chunked(isText, cs) =>
        hide Spelling, ChunksMeaning;
        ChunkedOfSpelling(isText, cs, rest, depth);
      case Container(isMap, framing, items) =>
        hide Spelling, Meaning;
        ContainerIsItem(isMap, framing, items, rest, depth);
        ContainerOfSpelling(isMap, framing, items, rest, depth + 1);
      case Tagged(w, tag, content) =>
        hide *;
        TagOfSpelling(w, tag, content, rest, depth);
    }
  }

  lemma JoinNothing(isText: bool, v: PyObject)
    requires if isText then v.PyStr? else v.PyBytes?
    ensures Join(isText, if isText then PyStr([]) else PyBytes([]), v) == v
  {
    if isText {
      assert [] + v.chars == v.chars;
    } else {
      assert [] + v.bytes == v.bytes;
    }
  }

  function StartOf(isMap: bool, framing: Framing, items: seq<Wire>): Element {
    if framing.UntilBreak? then if isMap then IndefMapStart else IndefArrayStart
    else if isMap then MapStart(Count(isMap, items)) else ArrayStart(Count(isMap, items))
  }

  /** What follows the start of a container, up to and including `rest`. */
  function BodyOf(framing: Framing, items: seq<Wire>, rest: seq<Byte>): seq<Byte>
    requires AllWellSpelled(items)
  {
    SpellAll(items) + Tail(framing, rest)
  }

  function Tail(framing: Framing, rest: seq<Byte>): seq<Byte> {
    if framing.UntilBreak? then [BREAK] + rest else rest
  }

  lemma ContainerStarts(isMap: bool, framing: Framing, items: seq<Wire>, rest: seq<Byte>)
    requires WellSpelled(Container(isMap, framing, items))
    ensures var bs := Spelling(Container(isMap, framing, items)) + rest;
            && NextElement(bs).Next?
            && NextElement(bs).e == StartOf(isMap, framing, items)
            && bs[NextElement(bs).len..] == BodyOf(framing, items, rest)
  {
    var mt := ContainerMajor(isMap);
    match framing
    case Counted(w) =>
      AppendAssociates(HeadBytes(mt, w, Count(isMap, items)), SpellAll(items), rest);
      ReadWrittenHead(mt, w, Count(isMap, items), SpellAll(items) + rest);
    case UntilBreak =>
      BrokenOff(mt, SpellAll(items), rest);
      NextOfOpen(mt, SpellAll(items) + ([BREAK] + rest));
  }

  /** Where the direct entry point for maps hands over to one of its loops. */
  lemma DictEnters(framing: Framing, items: seq<Wire>, rest: seq<Byte>, depth: nat)
    requires WellSpelled(Container(true, framing, items))
    ensures var r := PopDict(Spelling(Container(true, framing, items)) + rest, depth);
            if framing.Counted? && |items| / 2 > SSIZE_MAX then r.Err? && r.error == TooLarge
            else r == PopAllEntries(framing, |items| / 2, [], BodyOf(framing, items, rest), depth)
  {
    ContainerStarts(true, framing, items, rest);
    hide NextElement, Spelling, BodyOf, PopEntries, PopEntriesUntilBreak;
  }

  /** The same for lists. */
  lemma ListEnters(framing: Framing, items: seq<Wire>, rest: seq<Byte>, depth: nat)
    requires WellSpelled(Container(false, framing, items))
    ensures var r := PopList(Spelling(Container(false, framing, items)) + rest, depth);
            if framing.Counted? && |items| > SSIZE_MAX then r.Err? && r.error == TooLarge
            else r == PopAllItems(framing, |items|, [], BodyOf(framing, items, rest), depth)
  {
    ContainerStarts(false, framing, items, rest);
    hide NextElement, Spelling, BodyOf, PopItems, PopItemsUntilBreak;
  }

  /** The direct entry points on a container: they read its items at the depth they are called with. */
  lemma {:induction false} ContainerOfSpelling(
    isMap: bool, framing: Framing, items: seq<Wire>, rest: seq<Byte>, depth: nat)
    requires WellSpelled(Container(isMap, framing, items)) && depth <= MAX_DECODE_DEPTH
    ensures var x := Container(isMap, framing, items);
            var bs := Spelling(x) + rest;
            Owed(if isMap then PopDict(bs, depth) else PopList(bs, depth),
                 Meaning(x), depth + NestingOfAll(items) <= MAX_DECODE_DEPTH, rest)
    decreases items, 1
  {
    hide Spelling, BodyOf, PopDict, PopList, PopAllEntries, PopAllItems, MeaningOfAll, NestingOfAll, SetItems;
    if isMap {
      DictEnters(framing, items, rest, depth);
      EntriesOfSpelling(framing, [], items, rest, depth);
    } else {
      ListEnters(framing, items, rest, depth);
      ItemsOfSpelling(framing, [], items, rest, depth);
      if MeaningOfAll(items).Some? {
        assert [] + MeaningOfAll(items).value == MeaningOfAll(items).value;
      }
    }
  }

  lemma {:induction false} TagOfSpelling(w: Width, tag: nat, content: Wire, rest: seq<Byte>, depth: nat)
    requires WellSpelled(Tagged(w, tag, content)) && depth < MAX_DECODE_DEPTH
    ensures var x := Tagged(w, tag, content);
            Owed(PopItem(Spelling(x) + rest, depth), Meaning(x), depth + Nesting(x) <= MAX_DECODE_DEPTH, rest)
    decreases content, 3
  {
    hide NextElement, PopItem, Spelling;
    Dispatch(Spelling(Tagged(w, tag, content)) + rest, depth);
    TagStarts(w, tag, content, rest);
    NextOfContent(content, rest);
    ItemOfSpelling(content, rest, depth + 1);
  }

  lemma TagStarts(w: Width, tag: nat, content: Wire, rest: seq<Byte>)
    requires WellSpelled(Tagged(w, tag, content))
    ensures var bs := Spelling(Tagged(w, tag, content)) + rest;
            && NextElement(bs) == Next(TagStart(tag), 1 + Size(w))
            && bs[1 + Size(w)..] == Spelling(content) + rest
  {
    AppendAssociates(HeadBytes(6, w, tag), Spelling(content), rest);
    ReadWrittenHead(6, w, tag, Spelling(content) + rest);
  }

  /** The peek behind a tag sees a number exactly when the content is a numeric scalar. */
  lemma NextOfContent(x: Wire, rest: seq<Byte>)
    requires WellSpelled(x)
    ensures var n := NextElement(Spelling(x) + rest);
            n.Next? && IsNumber(n.e) <==> x.Scalar? && IsNumeric(x)
  {
    hide NextElement, SpellAll, SpellChunks, SpellChunk, BodyOf;
    match x
    case Scalar(_, _, _) => NextOfScalar(x, rest);
    case Text(isText, c) => NextOfChunk(isText, c, rest);
    case Chunked(isText, cs) =>
      BrokenOff(StringMajor(isText), SpellChunks(isText, cs), rest);
      NextOfOpen(StringMajor(isText), SpellChunks(isText, cs) + ([BREAK] + rest));
    case Container(isMap, framing, items) => ContainerStarts(isMap, framing, items, rest);
    case Tagged(w, tag, content) => TagStarts(w, tag, content, rest);
  }

  // ------------------------------------------------------------------ lists

  /** Either list loop. */
  ghost function PopAllItems(framing: Framing, n: nat, done: seq<PyObject>, bs: seq<Byte>, depth: nat): Outcome {
    if framing.Counted? then PopItems(n, done, bs, depth) else PopItemsUntilBreak(done, bs, depth)
  }

  lemma {:induction false} ItemsOfSpelling(
    framing: Framing, done: seq<PyObject>, xs: seq<Wire>, rest: seq<Byte>, depth: nat)
    requires AllWellSpelled(xs) && depth <= MAX_DECODE_DEPTH
    ensures var bs := BodyOf(framing, xs, rest);
            var m := MeaningOfAll(xs);
            Owed(PopAllItems(framing, |xs|, done, bs, depth),
                 if m.Some? then Some(PyList(done + m.value)) else None,
                 depth + NestingOfAll(xs) <= MAX_DECODE_DEPTH, rest)
    decreases xs, 0
  {
    hide PopItem, Spelling, Meaning, Nesting, NextElement;
    if xs == [] {
      assert BodyOf(framing, xs, rest) == Tail(framing, rest);
      NextOfBreak(rest);
      assert done + [] == done;
    } else {
      var tail := BodyOf(framing, xs[1..], rest);
      SpellAllSplits(xs, Tail(framing, rest));
      NextIsBreak(Spelling(xs[0]) + tail);
      ItemOfSpelling(xs[0], tail, depth);
      if Meaning(xs[0]).Some? {
        var v := Meaning(xs[0]).value;
        ItemsOfSpelling(framing, done + [v], xs[1..], rest, depth);
        if MeaningOfAll(xs[1..]).Some? {
          AppendAssociates(done, [v], MeaningOfAll(xs[1..]).value);
        }
      }
    }
  }

  // ------------------------------------------------------------------- maps

  /** The meaning of keys and values that come after `done`. */
  ghost function EntriesMeaning(done: Entries, xs: seq<Wire>): Option<PyObject>
    requires AllWellSpelled(xs) && |xs| % 2 == 0
  {
    var m := MeaningOfAll(xs);
    if m.Some? && SetItems(done, m.value).Some? then Some(PyDict(SetItems(done, m.value).value)) else None
  }

  /** Either map loop. */
  ghost function PopAllEntries(framing: Framing, n: nat, done: Entries, bs: seq<Byte>, depth: nat): Outcome {
    if framing.Counted? then PopEntries(n, done, bs, depth) else PopEntriesUntilBreak(done, bs, depth)
  }

  lemma EntriesTurn(framing: Framing, n: nat, done: Entries, bs: seq<Byte>, depth: nat)
    requires n > 0 && !AtBreak(bs)
    ensures PopAllEntries(framing, n, done, bs, depth)
         == match PopEntry(done, bs, depth)
            case Stop(error, left) => Err(error, left)
            case Go(entries, left) => PopAllEntries(framing, n - 1, entries, left, depth)
  {
    hide PopEntry, AtBreak;
  }

  /** The body of a map starts with its first key and value. */
  lemma BodySplits(framing: Framing, xs: seq<Wire>, rest: seq<Byte>)
    requires AllWellSpelled(xs) && |xs| >= 2
    ensures AllWellSpelled(xs[1..]) && WellSpelled(xs[0]) && WellSpelled(xs[1]) && AllWellSpelled(xs[2..])
    ensures BodyOf(framing, xs, rest) == Spelling(xs[0]) + (Spelling(xs[1]) + BodyOf(framing, xs[2..], rest))
    ensures !AtBreak(BodyOf(framing, xs, rest))
  {
    hide Spelling, NextElement, WellSpelled;
    assert xs[1..][1..] == xs[2..];
    SpellAllSplits(xs, Tail(framing, rest));
    SpellAllSplits(xs[1..], Tail(framing, rest));
    NextIsBreak(BodyOf(framing, xs, rest));
  }

  lemma {:induction false} EntriesOfSpelling(
    framing: Framing, done: Entries, xs: seq<Wire>, rest: seq<Byte>, depth: nat)
    requires AllWellSpelled(xs) && |xs| % 2 == 0 && depth <= MAX_DECODE_DEPTH
    ensures Owed(PopAllEntries(framing, |xs| / 2, done, BodyOf(framing, xs, rest), depth),
                 EntriesMeaning(done, xs), depth + NestingOfAll(xs) <= MAX_DECODE_DEPTH, rest)
    decreases xs, 0
  {
    hide PopItem, PopEntry, Spelling, Meaning, Nesting, NextElement, SetItem;
    if xs == [] {
      assert BodyOf(framing, xs, rest) == Tail(framing, rest);
      NextOfBreak(rest);
    } else {
      hide EntriesMeaning, EntryMeaning, NestingOfAll, AllWellSpelled, PopAllEntries, BodyOf, AtBreak;
      var tail := BodyOf(framing, xs[2..], rest);
      BodySplits(framing, xs, rest);
      ItemOfSpelling(xs[0], Spelling(xs[1]) + tail, depth);
      ItemOfSpelling(xs[1], tail, depth);
      EntryOfSpelling(done, xs[0], xs[1], tail, depth);
      EntriesTurn(framing, |xs| / 2, done, BodyOf(framing, xs, rest), depth);
      EntriesMeaningSplits(done, xs);
      if EntryMeaning(done, xs[0], xs[1]).Some? {
        EntriesOfSpelling(framing, EntryMeaning(done, xs[0], xs[1]).value, xs[2..], rest, depth);
      }
    }
  }

  ghost function EntryMeaning(done: Entries, k: Wire, v: Wire): Option<Entries>
    requires WellSpelled(k) && WellSpelled(v)
  {
    if Meaning(k).Some? && Meaning(v).Some? && Hashable(Meaning(k).value)
    then Some(SetItem(done, Meaning(k).value, Meaning(v).value)) else None
  }

  lemma EntriesMeaningSplits(done: Entries, xs: seq<Wire>)
    requires AllWellSpelled(xs) && |xs| % 2 == 0 && xs != []
    requires WellSpelled(xs[0]) && WellSpelled(xs[1]) && AllWellSpelled(xs[2..])
    ensures var e := EntryMeaning(done, xs[0], xs[1]);
            if e.Some? then EntriesMeaning(done, xs) == EntriesMeaning(e.value, xs[2..])
            else EntriesMeaning(done, xs).None?
    ensures NestingOfAll(xs) == Max(Nesting(xs[0]), Max(Nesting(xs[1]), NestingOfAll(xs[2..])))
  {
    hide Meaning, Nesting, WellSpelled, SetItem;
    FirstTwo(xs);
    var m := MeaningOfAll(xs);
    if m.Some? && Hashable(m.value[0]) {
      assert m.value[2..] == MeaningOfAll(xs[2..]).value;
    }
  }

  lemma FirstTwo(xs: seq<Wire>)
    requires AllWellSpelled(xs) && |xs| >= 2
    ensures AllWellSpelled(xs[1..]) && WellSpelled(xs[1]) && AllWellSpelled(xs[2..])
    ensures var a, b, m := Meaning(xs[0]), Meaning(xs[1]), MeaningOfAll(xs[2..]);
            MeaningOfAll(xs) == if a.Some? && b.Some? && m.Some? then Some([a.value, b.value] + m.value) else None
    ensures NestingOfAll(xs) == Max(Nesting(xs[0]), Max(Nesting(xs[1]), NestingOfAll(xs[2..])))
  {
    hide Meaning, Nesting, WellSpelled;
    var ys := xs[1..];
    assert ys[0] == xs[1] && ys[1..] == xs[2..];
    var a, b, m := Meaning(xs[0]), Meaning(xs[1]), MeaningOfAll(xs[2..]);
    if a.Some? && b.Some? && m.Some? {
      assert MeaningOfAll(ys).value == [b.value] + m.value;
      AppendAssociates([a.value], [b.value], m.value);
      assert [a.value] + [b.value] == [a.value, b.value];
    }
  }

  /** One turn of a map loop on the spellings of a key and a value. */
  lemma EntryOfSpelling(done: Entries, k: Wire, v: Wire, tail: seq<Byte>, depth: nat)
    requires WellSpelled(k) && WellSpelled(v)
    requires Owed(PopItem(Spelling(k) + (Spelling(v) + tail), depth), Meaning(k),
                  depth + Nesting(k) <= MAX_DECODE_DEPTH, Spelling(v) + tail)
    requires Owed(PopItem(Spelling(v) + tail, depth), Meaning(v),
                  depth + Nesting(v) <= MAX_DECODE_DEPTH, tail)
    ensures var r := PopEntry(done, Spelling(k) + (Spelling(v) + tail), depth);
            var m := EntryMeaning(done, k, v);
            if m.Some? && depth + Nesting(k) <= MAX_DECODE_DEPTH && depth + Nesting(v) <= MAX_DECODE_DEPTH
            then r == Go(m.value, tail)
            else r.Stop? && (m.Some? ==> r.error == RecursionLimit)
  {
    hide PopItem, Spelling, Nesting, SetItem;
    if Meaning(k).Some? && Hashable(Meaning(k).value) && depth + Nesting(k) > MAX_DECODE_DEPTH {
      KeyTooDeep(k, Spelling(v) + tail, depth);
    }
  }

  /** A key that is too deep leaves bytes whose next item is either read, or too deep in its turn. */
  lemma KeyTooDeep(k: Wire, tail: seq<Byte>, depth: nat)
    requires WellSpelled(k) && Meaning(k).Some? && Hashable(Meaning(k).value)
    requires depth + Nesting(k) > MAX_DECODE_DEPTH
    ensures var r := PopItem(Spelling(k) + tail, depth);
            r.Err? && (var s := PopItem(r.rest, depth); s.Err? ==> s.error == RecursionLimit)
  {
    if depth < MAX_DECODE_DEPTH {
      hide NextElement, PopItem, Spelling;
      assert k.Tagged? && k.content.Scalar? && depth == MAX_DECODE_DEPTH - 1;
      Dispatch(Spelling(k) + tail, depth);
      TagStarts(k.w, k.tag, k.content, tail);
      NextOfContent(k.content, tail);
      ScalarOfSpelling(k.content, tail, depth);
    }
  }

  // -------------------------------------------------------------- soundness

  /** Whatever the decoder accepts, Appendix C accepts, and both stop at the same byte. */
  lemma {:induction false} AcceptedIsWellFormed(bs: seq<Byte>, depth: nat, breakable: bool)
    requires PopItem(bs, depth).Ok?
    ensures WellFormed(bs, breakable).Item?
    ensures WellFormed(bs, breakable).rest == PopItem(bs, depth).rest
    decreases |bs|, 3
  {
    assert depth < MAX_DECODE_DEPTH;
    hide PopItem, NextElement;
    Dispatch(bs, depth);
    var e := NextElement(bs).e;
    if e.TagStart? {
      TagAccepted(bs, depth, breakable);
    } else if e.ArrayStart? || e.MapStart? {
      CountedAccepted(bs, depth, breakable);
    } else if e.IndefArrayStart? || e.IndefMapStart? || e.IndefBytesStart? || e.IndefTextStart? {
      IndefiniteAccepted(bs, depth, breakable);
    } else {
      LeafAccepted(bs, breakable);
    }
  }

  /** Elements that are whole items take the same bytes in both readings. */
  lemma LeafAccepted(bs: seq<Byte>, breakable: bool)
    requires NextElement(bs).Next?
    requires ScalarMeaning(NextElement(bs).e).Some? || NextElement(bs).e.ByteStr? || NextElement(bs).e.TextStr?
    ensures WellFormed(bs, breakable).Item?
    ensures WellFormed(bs, breakable).rest == bs[NextElement(bs).len..]
  {
    hide ReadHead, HeadBytes, SimpleElement, Repeat, WellFormedIndefinite;
    var h := ReadHead(bs);
    if h.Definite? {
      WrittenHeadOfRead(bs);
      if h.major == 7 && SimpleElement(h.w, h.arg).Some? {
        SimpleIsScalar(h.w, h.arg);
      }
    }
  }

  /** Both readings enter an item at the same place. */
  lemma SameStart(bs: seq<Byte>, breakable: bool)
    requires NextElement(bs).Next?
    ensures var Next(e, len) := NextElement(bs);
            && (e.TagStart? ==> WellFormed(bs, breakable) == Repeat(6, 1, bs[len..]))
            && (e.ArrayStart? ==> WellFormed(bs, breakable) == Repeat(4, e.n, bs[len..]))
            && (e.MapStart? ==> WellFormed(bs, breakable) == Repeat(5, 2 * e.n, bs[len..]))
            && (e.IndefArrayStart? ==> WellFormed(bs, breakable) == ItemsUntilBreak(bs[len..]))
            && (e.IndefMapStart? ==> WellFormed(bs, breakable) == PairsUntilBreak(bs[len..]))
            && (e.IndefBytesStart? ==> WellFormed(bs, breakable) == ChunksUntilBreak(2, bs[len..]))
            && (e.IndefTextStart? ==> WellFormed(bs, breakable) == ChunksUntilBreak(3, bs[len..]))
  {
    hide ReadHead, HeadBytes, SimpleElement, Repeat, ItemsUntilBreak, PairsUntilBreak, ChunksUntilBreak;
    match ReadHead(bs)
    case NoHead =>
    case Open(mt) =>
      assert WellFormed(bs, breakable) == WellFormedIndefinite(mt, bs[1..], breakable);
    case Definite(mt, w, val) =>
      WrittenHeadOfRead(bs);
      if mt == 7 && SimpleElement(w, val).Some? {
        SimpleIsScalar(w, val);
      }
      assert WellFormed(bs, breakable) == Content(mt, w, val, bs[1 + Size(w)..]);
  }

  lemma {:induction false} TagAccepted(bs: seq<Byte>, depth: nat, breakable: bool)
    requires depth < MAX_DECODE_DEPTH && PopItem(bs, depth).Ok? && NextElement(bs).e.TagStart?
    ensures WellFormed(bs, breakable).Item?
    ensures WellFormed(bs, breakable).rest == PopItem(bs, depth).rest
    decreases |bs|, 2
  {
    hide PopItem, NextElement, WellFormed;
    Dispatch(bs, depth);
    SameStart(bs, breakable);
    AcceptedIsWellFormed(bs[NextElement(bs).len..], depth + 1, false);
    assert Repeat(6, 0, PopItem(bs, depth).rest).Item?;
  }

  lemma {:induction false} CountedAccepted(bs: seq<Byte>, depth: nat, breakable: bool)
    requires depth < MAX_DECODE_DEPTH && PopItem(bs, depth).Ok?
    requires NextElement(bs).e.ArrayStart? || NextElement(bs).e.MapStart?
    ensures WellFormed(bs, breakable).Item?
    ensures WellFormed(bs, breakable).rest == PopItem(bs, depth).rest
    decreases |bs|, 2
  {
    hide PopItem, NextElement, WellFormed, Repeat, PopItems, PopEntries;
    Dispatch(bs, depth);
    SameStart(bs, breakable);
    var Next(e, len) := NextElement(bs);
    if e.ArrayStart? {
      ItemsAccepted(4, e.n, [], bs[len..], depth + 1);
    } else {
      EntriesAccepted(5, e.n, [], bs[len..], depth + 1);
    }
  }

  lemma {:induction false} IndefiniteAccepted(bs: seq<Byte>, depth: nat, breakable: bool)
    requires depth < MAX_DECODE_DEPTH && PopItem(bs, depth).Ok?
    requires var e := NextElement(bs).e;
             e.IndefArrayStart? || e.IndefMapStart? || e.IndefBytesStart? || e.IndefTextStart?
    ensures WellFormed(bs, breakable).Item?
    ensures WellFormed(bs, breakable).rest == PopItem(bs, depth).rest
    decreases |bs|, 2
  {
    hide PopItem, NextElement, WellFormed, PopItemsUntilBreak, PopEntriesUntilBreak, PopChunks;
    Dispatch(bs, depth);
    SameStart(bs, breakable);
    var body := bs[NextElement(bs).len..];
    match NextElement(bs).e
    case IndefBytesStart => ChunksAccepted(false, PyBytes([]), body);
    case IndefTextStart => ChunksAccepted(true, PyStr([]), body);
    case IndefArrayStart => ItemsAcceptedUntilBreak([], body, depth + 1);
    case IndefMapStart => EntriesAcceptedUntilBreak([], body, depth + 1);
  }

  lemma StringAccepted(isText: bool, bs: seq<Byte>)
    requires PopString(isText, bs).Ok?
    ensures WellFormed(bs, true) == Item(StringMajor(isText), PopString(isText, bs).rest)
  {
    hide ReadHead, HeadBytes, SimpleElement, Repeat, WellFormedIndefinite;
    var h := ReadHead(bs);
    if h.Definite? {
      WrittenHeadOfRead(bs);
      if h.major == 7 && SimpleElement(h.w, h.arg).Some? {
        SimpleIsScalar(h.w, h.arg);
      }
    }
  }

  lemma {:induction false} ChunksAccepted(isText: bool, done: PyObject, bs: seq<Byte>)
    requires if isText then done.PyStr? else done.PyBytes?
    requires PopChunks(isText, done, bs).Ok?
    ensures ChunksUntilBreak(StringMajor(isText), bs) == Item(INDEFINITE, PopChunks(isText, done, bs).rest)
    decreases |bs|, 1
  {
    hide NextElement, PopString, WellFormed;
    if AtBreak(bs) {
      BreakAccepted(bs);
    } else {
      StringAccepted(isText, bs);
      var part := PopString(isText, bs);
      ChunksAccepted(isText, Join(isText, done, part.value), part.rest);
    }
  }

  lemma {:induction false} ItemsAccepted(mt: Major, n: nat, done: seq<PyObject>, bs: seq<Byte>, depth: nat)
    requires PopItems(n, done, bs, depth).Ok?
    ensures Repeat(mt, n, bs) == Item(mt, PopItems(n, done, bs, depth).rest)
    decreases |bs|, 4, n
  {
    hide PopItem, WellFormed;
    if n > 0 {
      AcceptedIsWellFormed(bs, depth, false);
      var item := PopItem(bs, depth);
      ItemsAccepted(mt, n - 1, done + [item.value], item.rest, depth);
    }
  }

  lemma {:induction false} ItemsAcceptedUntilBreak(done: seq<PyObject>, bs: seq<Byte>, depth: nat)
    requires PopItemsUntilBreak(done, bs, depth).Ok?
    ensures ItemsUntilBreak(bs) == Item(INDEFINITE, PopItemsUntilBreak(done, bs, depth).rest)
    decreases |bs|, 4
  {
    hide PopItem, WellFormed;
    if AtBreak(bs) {
      BreakAccepted(bs);
    } else {
      AcceptedIsWellFormed(bs, depth, true);
      var item := PopItem(bs, depth);
      ItemsAcceptedUntilBreak(done + [item.value], item.rest, depth);
    }
  }

  lemma BreakAccepted(bs: seq<Byte>)
    requires AtBreak(bs)
    ensures NextElement(bs) == Next(Break, 1)
    ensures WellFormed(bs, true) == BreakFound(bs[1..])
  {
    NextIsBreak(bs);
  }

  lemma {:induction false} EntriesAccepted(mt: Major, n: nat, done: Entries, bs: seq<Byte>, depth: nat)
    requires PopEntries(n, done, bs, depth).Ok?
    ensures Repeat(mt, 2 * n, bs) == Item(mt, PopEntries(n, done, bs, depth).rest)
    decreases |bs|, 5, n
  {
    hide PopItem, WellFormed;
    if n > 0 {
      var key := PopItem(bs, depth);
      AcceptedIsWellFormed(bs, depth, false);
      AcceptedIsWellFormed(key.rest, depth, false);
      var turn := PopEntry(done, bs, depth);
      EntriesAccepted(mt, n - 1, turn.entries, turn.rest, depth);
      assert Repeat(mt, 2 * n - 1, key.rest) == Repeat(mt, 2 * n - 2, turn.rest);
    }
  }

  lemma {:induction false} EntriesAcceptedUntilBreak(done: Entries, bs: seq<Byte>, depth: nat)
    requires PopEntriesUntilBreak(done, bs, depth).Ok?
    ensures PairsUntilBreak(bs) == Item(INDEFINITE, PopEntriesUntilBreak(done, bs, depth).rest)
    decreases |bs|, 5
  {
    hide PopItem, WellFormed;
    if AtBreak(bs) {
      BreakAccepted(bs);
    } else {
      var key := PopItem(bs, depth);
      AcceptedIsWellFormed(bs, depth, true);
      AcceptedIsWellFormed(key.rest, depth, false);
      var turn := PopEntry(done, bs, depth);
      EntriesAcceptedUntilBreak(turn.entries, turn.rest, depth);
    }
  }

  /**
   Soundness: an accepted prefix is the spelling of one item, the value returned is its meaning, and
   its nesting is within the limit.
   */
  lemma AcceptedIsSpelling(bs: seq<Byte>, depth: nat) returns (x: Wire)
    requires PopItem(bs, depth).Ok?
    ensures WellSpelled(x)
    ensures bs == Spelling(x) + PopItem(bs, depth).rest
    ensures Meaning(x) == Some(PopItem(bs, depth).value)
    ensures depth + Nesting(x) <= MAX_DECODE_DEPTH
  {
    hide PopItem, WellFormed, Spelling, Meaning, Nesting, WellSpelled;
    AcceptedIsWellFormed(bs, depth, false);
    x := WellFormedIsSpelling(bs, false);
    ItemOfSpelling(x, WellFormed(bs, false).rest, depth);
  }
}
