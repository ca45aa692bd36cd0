/**
 Buffering of response headers: they arrive in slices, are flattened into NUL-terminated strings next to
 a separate count, and are scanned apart again when their block is done.
 */
module HttpHeaders {
  import opened Octets
  import Utf8

  datatype Header = Header(name: seq<Byte>, value: seq<Byte>)

  /** A header as Python receives it. */
  datatype TextHeader = TextHeader(name: seq<Utf8.CodePoint>, value: seq<Utf8.CodePoint>)

  datatype Block = Informational | Main | Trailing

  /** One call of `_on_response`. */
  datatype Response = Response(status: int, headers: seq<TextHeader>)

  /**
   What the surroundings decide when a block is done: the response status if there is one, whether
   Python is still running, and whether the `_on_response` callback returns normally.
   */
  datatype Environment = Environment(status: Option<int>, pythonAlive: bool, callbackOk: bool)

  // ---------------------------------------------------------------- buffer

  function Flatten(hs: seq<Header>): seq<Byte> {
    if hs == [] then [] else FlattenOne(hs[0]) + Flatten(hs[1..])
  }

  function FlattenOne(h: Header): seq<Byte> {
    h.name + [0] + h.value + [0]
  }

  /** `strnlen`: the bytes before the first NUL, or all of them. */
  function StrNLen(bs: seq<Byte>): (n: nat)
    ensures n <= |bs|
  {
    if bs == [] || bs[0] == 0 then 0 else 1 + StrNLen(bs[1..])
  }

  /** `aws_byte_cursor_advance`, which does not move when asked for more than there is. */
  function Advance(cursor: seq<Byte>, n: nat): seq<Byte> {
    if n <= |cursor| then cursor[n..] else cursor
  }

  /** One turn of the scanning loop: a header, and the cursor behind it. */
  function TakeHeader(cursor: seq<Byte>): (Header, seq<Byte>) {
    var name := cursor[..StrNLen(cursor)];
    var mid := Advance(cursor, |name| + 1);
    var value := mid[..StrNLen(mid)];
    (Header(name, value), Advance(mid, |value| + 1))
  }

  /** The scanning loop of the block-done callback. */
  function Scan(n: nat, cursor: seq<Byte>): (hs: seq<Header>)
    decreases n
  {
    if n == 0 then []
    else
      var (h, rest) := TakeHeader(cursor);
      [h] + Scan(n - 1, rest)
  }

  /** Every scan of the loop finds a terminator, so every advance stays inside the buffer. */
  predicate ScansInside(n: nat, cursor: seq<Byte>)
    decreases n
  {
    n == 0 ||
    (&& StrNLen(cursor) < |cursor|
     && var mid := cursor[StrNLen(cursor) + 1..];
     && StrNLen(mid) < |mid|
     && ScansInside(n - 1, mid[StrNLen(mid) + 1..]))
  }

  predicate NoNul(s: seq<Byte>) {
    forall i :: 0 <= i < |s| ==> s[i] != 0
  }

  predicate NulFree(h: Header) {
    NoNul(h.name) && NoNul(h.value)
  }

  predicate AllNulFree(hs: seq<Header>) {
    hs == [] || (NulFree(hs[0]) && AllNulFree(hs[1..]))
  }

  lemma {:induction false} NulFreeAppends(a: seq<Header>, b: seq<Header>)
    ensures AllNulFree(a + b) <==> AllNulFree(a) && AllNulFree(b)
  {
    if a == [] {
      assert a + b == b;
    } else {
      hide NulFree;
      assert (a + b)[1..] == a[1..] + b;
      NulFreeAppends(a[1..], b);
    }
  }

  // ------------------------------------------------------- scanning proofs

  lemma {:induction false} FlattenAppends(a: seq<Header>, b: seq<Header>)
    ensures Flatten(a + b) == Flatten(a) + Flatten(b)
  {
    if a == [] {
      assert a + b == b;
    } else {
      hide FlattenOne;
      assert (a + b)[1..] == a[1..] + b;
      FlattenAppends(a[1..], b);
      AppendAssociates(FlattenOne(a[0]), Flatten(a[1..]), Flatten(b));
    }
  }

  lemma FlattenSnoc(hs: seq<Header>, h: Header)
    ensures Flatten(hs + [h]) == Flatten(hs) + FlattenOne(h)
  {
    FlattenAppends(hs, [h]);
    assert [h][1..] == [];
    assert FlattenOne(h) + [] == FlattenOne(h);
  }

  /** `strnlen` stops at the first NUL and at nothing else. */
  lemma {:induction false} StrNLenStops(bs: seq<Byte>)
    ensures NoNul(bs[..StrNLen(bs)])
    ensures StrNLen(bs) < |bs| ==> bs[StrNLen(bs)] == 0
  {
    if bs != [] && bs[0] != 0 {
      StrNLenStops(bs[1..]);
      assert bs[..StrNLen(bs)] == [bs[0]] + bs[1..][..StrNLen(bs[1..])];
    }
  }

  /** One string is cut off in front of its terminator. */
  lemma {:induction false} StringCutOff(s: seq<Byte>, rest: seq<Byte>)
    requires NoNul(s)
    ensures StrNLen(s + ([0] + rest)) == |s|
    ensures (s + ([0] + rest))[..|s|] == s && Advance(s + ([0] + rest), |s| + 1) == rest
  {
    var bs := s + ([0] + rest);
    if s != [] {
      assert bs[1..] == s[1..] + ([0] + rest);
      StringCutOff(s[1..], rest);
    }
  }

  lemma TakeOne(h: Header, rest: seq<Byte>)
    requires NulFree(h)
    ensures TakeHeader(FlattenOne(h) + rest) == (h, rest)
  {
    hide StrNLen, Advance, NoNul;
    assert FlattenOne(h) + rest == h.name + ([0] + (h.value + ([0] + rest)));
    StringCutOff(h.name, h.value + ([0] + rest));
    StringCutOff(h.value, rest);
  }

  lemma {:induction false} ScanOfFlatten(hs: seq<Header>, rest: seq<Byte>)
    requires AllNulFree(hs)
    ensures Scan(|hs|, Flatten(hs) + rest) == hs
  {
    hide FlattenOne, NulFree, TakeHeader;
    if hs != [] {
      AppendAssociates(FlattenOne(hs[0]), Flatten(hs[1..]), rest);
      TakeOne(hs[0], Flatten(hs[1..]) + rest);
      ScanOfFlatten(hs[1..], rest);
      assert hs == [hs[0]] + hs[1..];
    }
  }

  lemma TakenIsNulFree(cursor: seq<Byte>)
    ensures NulFree(TakeHeader(cursor).0)
  {
    hide NoNul;
    StrNLenStops(cursor);
    StrNLenStops(Advance(cursor, StrNLen(cursor) + 1));
  }

  lemma {:induction false} ScannedIsNulFree(n: nat, cursor: seq<Byte>)
    ensures AllNulFree(Scan(n, cursor))
  {
    hide TakeHeader, NulFree;
    if n > 0 {
      TakenIsNulFree(cursor);
      var (h, rest) := TakeHeader(cursor);
      ScannedIsNulFree(n - 1, rest);
      assert ([h] + Scan(n - 1, rest))[1..] == Scan(n - 1, rest);
    }
  }

  /** A flattened block scans back to itself exactly when no name or value holds a NUL. */
  lemma ScanInvertsFlattenIff(hs: seq<Header>)
    ensures Scan(|hs|, Flatten(hs)) == hs <==> AllNulFree(hs)
  {
    ScannedIsNulFree(|hs|, Flatten(hs));
    if AllNulFree(hs) {
      ScanOfFlatten(hs, []);
      assert Flatten(hs) + [] == Flatten(hs);
    }
  }

  function Nuls(bs: seq<Byte>): nat {
    if bs == [] then 0 else (if bs[0] == 0 then 1 else 0) + Nuls(bs[1..])
  }

  lemma {:induction false} NulsAppend(a: seq<Byte>, b: seq<Byte>)
    ensures Nuls(a + b) == Nuls(a) + Nuls(b)
  {
    if a == [] {
      assert a + b == b;
    } else {
      assert (a + b)[1..] == a[1..] + b;
      NulsAppend(a[1..], b);
    }
  }

  lemma {:induction false} NulsAfterScan(bs: seq<Byte>)
    requires Nuls(bs) > 0
    ensures StrNLen(bs) < |bs| && Nuls(bs[StrNLen(bs) + 1..]) == Nuls(bs) - 1
  {
    if bs[0] != 0 {
      NulsAfterScan(bs[1..]);
      assert bs[1..][StrNLen(bs[1..]) + 1..] == bs[StrNLen(bs) + 1..];
    }
  }

  lemma {:induction false} EnoughNuls(n: nat, cursor: seq<Byte>)
    requires Nuls(cursor) >= 2 * n
    ensures ScansInside(n, cursor)
    decreases n
  {
    hide StrNLen, Nuls;
    if n > 0 {
      NulsAfterScan(cursor);
      var mid := cursor[StrNLen(cursor) + 1..];
      NulsAfterScan(mid);
      EnoughNuls(n - 1, mid[StrNLen(mid) + 1..]);
    }
  }

  /** Scanning a buffered block never leaves the buffer, whatever bytes the headers hold. */
  lemma {:induction false} ScanStaysInside(hs: seq<Header>)
    ensures Nuls(Flatten(hs)) >= 2 * |hs|
    ensures ScansInside(|hs|, Flatten(hs))
  {
    if hs != [] {
      var h := hs[0];
      ScanStaysInside(hs[1..]);
      NulsAppend(h.name + [0] + h.value, [0]);
      NulsAppend(h.name + [0], h.value);
      NulsAppend(h.name, [0]);
      NulsAppend(FlattenOne(h), Flatten(hs[1..]));
    }
    EnoughNuls(|hs|, Flatten(hs));
  }

  // --------------------------------------------------------------- delivery

  /** Names and values become `str`; one that is not UTF-8 fails the whole block. */
  function ToText(h: Header): Option<TextHeader> {
    var name, value := Utf8.Decode(h.name), Utf8.Decode(h.value);
    if name.Some? && value.Some? then Some(TextHeader(name.value, value.value)) else None
  }

  function AllToText(hs: seq<Header>): (r: Option<seq<TextHeader>>)
    ensures r.Some? ==> |r.value| == |hs|
  {
    if hs == [] then Some([])
    else
      match ToText(hs[0])
      case None => None
      case Some(t) =>
        match AllToText(hs[1..])
        case None => None
        case Some(ts) => Some([t] + ts)
  }

  /** What Python receives are the sent bytes, read as UTF-8: every name its name and every value its value. */
  predicate SentAs(ts: seq<TextHeader>, hs: seq<Header>) {
    && |ts| == |hs|
    && forall i :: 0 <= i < |ts| ==>
         && Utf8.AllScalar(ts[i].name) && Utf8.Encode(ts[i].name) == hs[i].name
         && Utf8.AllScalar(ts[i].value) && Utf8.Encode(ts[i].value) == hs[i].value
  }

  /** Headers become text iff every name and every value is UTF-8, and then nothing is lost, added or moved. */
  lemma {:induction false} TextIff(hs: seq<Header>)
    ensures AllToText(hs).Some? <==>
            forall i :: 0 <= i < |hs| ==> Utf8.Decode(hs[i].name).Some? && Utf8.Decode(hs[i].value).Some?
    ensures AllToText(hs).Some? ==> SentAs(AllToText(hs).value, hs)
  {
    hide Utf8.Decode, Utf8.Encode, Utf8.AllScalar;
    if hs != [] {
      var h, rest := hs[0], hs[1..];
      TextIff(rest);
      assert forall i :: 0 <= i < |rest| ==> rest[i] == hs[i + 1];
      if ToText(h).Some? {
        Utf8.EncodeOfDecode(h.name);
        Utf8.EncodeOfDecode(h.value);
      }
      if AllToText(hs).Some? {
        var ts := AllToText(hs).value;
        assert forall i :: 0 < i < |ts| ==> ts[i] == AllToText(rest).value[i - 1];
      }
    }
  }

  /** The text is determined by the bytes. */
  lemma SentAsIsUnique(ts: seq<TextHeader>, us: seq<TextHeader>, hs: seq<Header>)
    requires SentAs(ts, hs) && SentAs(us, hs)
    ensures ts == us
  {
    hide Utf8.Decode, Utf8.Encode, Utf8.AllScalar;
    forall i | 0 <= i < |ts| ensures ts[i] == us[i] {
      Utf8.DecodeOfEncode(ts[i].name);
      Utf8.DecodeOfEncode(ts[i].value);
      Utf8.DecodeOfEncode(us[i].name);
      Utf8.DecodeOfEncode(us[i].value);
    }
  }

  /** Scanning and converting in one pass, as the callback does; `done` is what the list holds. */
  function Extract(n: nat, cursor: seq<Byte>, done: seq<TextHeader>): Option<seq<TextHeader>>
    decreases n
  {
    if n == 0 then Some(done)
    else
      var (h, rest) := TakeHeader(cursor);
      match ToText(h)
      case None => None
      case Some(t) => Extract(n - 1, rest, done + [t])
  }

  lemma {:induction false} ExtractScans(n: nat, cursor: seq<Byte>, done: seq<TextHeader>)
    ensures var all := AllToText(Scan(n, cursor));
            Extract(n, cursor, done) == if all.Some? then Some(done + all.value) else None
    decreases n
  {
    hide TakeHeader, ToText;
    if n == 0 {
      assert done + [] == done;
    } else {
      var (h, rest) := TakeHeader(cursor);
      assert ([h] + Scan(n - 1, rest))[1..] == Scan(n - 1, rest);
      if ToText(h).Some? {
        var t := ToText(h).value;
        ExtractScans(n - 1, rest, done + [t]);
        if AllToText(Scan(n - 1, rest)).Some? {
          AppendAssociates(done, [t], AllToText(Scan(n - 1, rest)).value);
        }
      }
    }
  }

  lemma ExtractFromEmpty(n: nat, cursor: seq<Byte>)
    ensures Extract(n, cursor, []) == AllToText(Scan(n, cursor))
  {
    ExtractScans(n, cursor, []);
    var all := AllToText(Scan(n, cursor));
    if all.Some? {
      assert [] + all.value == all.value;
    }
  }

  /** The fields of the binding, and the calls of `_on_response` made so far. */
  datatype State = State(buffer: seq<Byte>, count: nat, responses: seq<Response>)

  function OnHeaders(s: State, hs: seq<Header>): State {
    s.(buffer := s.buffer + Flatten(hs), count := s.count + |hs|)
  }

  /** The block-done callback: whether it succeeds, and the state it leaves. */
  function OnBlockDone(s: State, block: Block, env: Environment): (bool, State) {
    if env.status.None? || s.count > SSIZE_MAX || !env.pythonAlive then (false, s)
    else
      match AllToText(Scan(s.count, s.buffer))
      case None => (false, s)
      case Some(ts) =>
        var called := if block.Main? then s.responses + [Response(env.status.value, ts)] else s.responses;
        if block.Main? && !env.callbackOk then (false, s.(responses := called))
        else (true, State([], 0, called))
  }

  class HttpStream {
    var receivedHeaders: seq<Byte>
    var receivedHeadersCount: nat
    ghost var responses: seq<Response>

    ghost function Abs(): State
      reads this
    {
      State(receivedHeaders, receivedHeadersCount, responses)
    }

    constructor ()
      ensures Abs() == State([], 0, [])
    {
      receivedHeaders := [];
      receivedHeadersCount := 0;
      responses := [];
    }

    /** One turn of the loop: four appends, and the count. */
    method AppendHeader(header: Header)
      modifies this`receivedHeaders, this`receivedHeadersCount
      ensures receivedHeaders == old(receivedHeaders) + FlattenOne(header)
      ensures receivedHeaders == old(receivedHeaders) + (header.name + [0] + header.value + [0])
      ensures receivedHeadersCount == old(receivedHeadersCount) + 1
    {
      receivedHeaders := receivedHeaders + header.name;
      receivedHeaders := receivedHeaders + [0];
      receivedHeaders := receivedHeaders + header.value;
      receivedHeaders := receivedHeaders + [0];
      receivedHeadersCount := receivedHeadersCount + 1;
    }

    method OnIncomingHeaders(headers: seq<Header>)
      modifies this
      ensures Abs() == OnHeaders(old(Abs()), headers)
    {
      assert headers[..0] == [] && receivedHeaders + [] == receivedHeaders;
      for i := 0 to |headers|
        invariant receivedHeaders == old(receivedHeaders) + Flatten(headers[..i])
        invariant receivedHeadersCount == old(receivedHeadersCount) + i && responses == old(responses)
      {
        hide Flatten, FlattenOne;
        assert headers[..i + 1] == headers[..i] + [headers[i]];
        FlattenSnoc(headers[..i], headers[i]);
        AppendAssociates(old(receivedHeaders), Flatten(headers[..i]), FlattenOne(headers[i]));
        AppendHeader(headers[i]);
      }
      assert headers[..|headers|] == headers;
    }

    /** The loop that extracts name and value strings; it reads the buffer through a moving cursor. */
    method BuildHeaderList() returns (headerList: Option<seq<TextHeader>>)
      ensures headerList == AllToText(Scan(receivedHeadersCount, receivedHeaders))
      ensures headerList.Some? ==> SentAs(headerList.value, Scan(receivedHeadersCount, receivedHeaders))
    {
      TextIff(Scan(receivedHeadersCount, receivedHeaders));
      ExtractFromEmpty(receivedHeadersCount, receivedHeaders);
      hide AllToText, Scan, StrNLen, Advance, ToText, SentAs;
      var list: seq<TextHeader> := [];
      var cursor := receivedHeaders;
      for i := 0 to receivedHeadersCount
        invariant Extract(receivedHeadersCount - i, cursor, list) == Extract(receivedHeadersCount, receivedHeaders, [])
      {
        var nameLen := StrNLen(cursor);
        var name := cursor[..nameLen];
        cursor := Advance(cursor, nameLen + 1);
        var valueLen := StrNLen(cursor);
        var value := cursor[..valueLen];
        cursor := Advance(cursor, valueLen + 1);
        var tuple := ToText(Header(name, value));
        if tuple.None? {
          return None;
        }
        list := list + [tuple.value];
      }
      return Some(list);
    }

    method OnIncomingHeaderBlockDone(block: Block, env: Environment) returns (ok: bool)
      modifies this
      ensures (ok, Abs()) == OnBlockDone(old(Abs()), block, env)
      ensures ok <==>
                && env.status.Some? && env.pythonAlive && old(receivedHeadersCount) <= 0x7FFF_FFFF_FFFF_FFFF
                && AllToText(Scan(old(receivedHeadersCount), old(receivedHeaders))).Some?
                && (block == Main ==> env.callbackOk)
      ensures if ok then receivedHeaders == [] && receivedHeadersCount == 0
              else receivedHeaders == old(receivedHeaders) && receivedHeadersCount == old(receivedHeadersCount)
    {
      if env.status.None? {
        return false;
      }
      if receivedHeadersCount > SSIZE_MAX {
        return false;
      }
      if !env.pythonAlive {
        return false;
      }
      var headerList := BuildHeaderList();
      if headerList.None? {
        return false;
      }
      if block == Main {
        responses := responses + [Response(env.status.value, headerList.value)];
        if !env.callbackOk {
          return false;
        }
      }
      receivedHeaders := [];
      receivedHeadersCount := 0;
      return true;
    }
  }

  // ------------------------------------------------------------- whole runs

  datatype Event = Headers(slice: seq<Header>) | Done(block: Block, env: Environment)

  function Step(s: State, e: Event): State {
    match e
    case Headers(slice) => OnHeaders(s, slice)
    case Done(block, env) => OnBlockDone(s, block, env).1
  }

  function Run(s: State, es: seq<Event>): State
    decreases |es|
  {
    if es == [] then s else Run(Step(s, es[0]), es[1..])
  }

  /** The binding without a buffer: the headers of the current block, as they came. */
  datatype Ideal = Ideal(pending: seq<Header>, responses: seq<Response>)

  function IdealStep(s: Ideal, e: Event): Ideal {
    match e
    case Headers(slice) => s.(pending := s.pending + slice)
    case Done(block, env) =>
      if env.status.None? || |s.pending| > SSIZE_MAX || !env.pythonAlive || AllToText(s.pending).None? then s
      else
        var call := Response(env.status.value, AllToText(s.pending).value);
        var called := if block.Main? then s.responses + [call] else s.responses;
        Ideal(if block.Main? && !env.callbackOk then s.pending else [], called)
  }

  function IdealRun(s: Ideal, es: seq<Event>): Ideal
    decreases |es|
  {
    if es == [] then s else IdealRun(IdealStep(s, es[0]), es[1..])
  }

  ghost predicate Represents(s: State, i: Ideal) {
    s.buffer == Flatten(i.pending) && s.count == |i.pending| && s.responses == i.responses
  }

  predicate EventNulFree(e: Event) {
    e.Headers? ==> AllNulFree(e.slice)
  }

  predicate EventsNulFree(es: seq<Event>) {
    es == [] || (EventNulFree(es[0]) && EventsNulFree(es[1..]))
  }

  /**
   Every run of the buffered binding is a run of the ideal one, for any slicing of the headers into calls
   and any order, kind and outcome of the blocks, as long as names and values are free of NULs.
   */
  lemma {:induction false} RunRefinesIdeal(s: State, i: Ideal, es: seq<Event>)
    requires Represents(s, i) && AllNulFree(i.pending) && EventsNulFree(es)
    ensures Represents(Run(s, es), IdealRun(i, es)) && AllNulFree(IdealRun(i, es).pending)
    decreases |es|
  {
    if es != [] {
      StepRefinesIdeal(s, i, es[0]);
      hide Step, IdealStep, AllNulFree, EventNulFree, Represents;
      RunRefinesIdeal(Step(s, es[0]), IdealStep(i, es[0]), es[1..]);
    }
  }

  lemma StepRefinesIdeal(s: State, i: Ideal, e: Event)
    requires Represents(s, i) && AllNulFree(i.pending) && EventNulFree(e)
    ensures Represents(Step(s, e), IdealStep(i, e)) && AllNulFree(IdealStep(i, e).pending)
  {
    hide AllNulFree, Flatten, Scan, AllToText;
    if e.Headers? {
      FlattenAppends(i.pending, e.slice);
      NulFreeAppends(i.pending, e.slice);
    } else {
      ScanInvertsFlattenIff(i.pending);
      NothingFlattened();
    }
  }

  lemma NothingFlattened()
    ensures Flatten([]) == [] && AllNulFree([])
  {
  }

  /** What every reachable buffer is: some headers, flattened, with their number. */
  ghost predicate Buffered(s: State) {
    exists hs :: s.buffer == Flatten(hs) && s.count == |hs|
  }

  lemma StepKeepsBuffered(s: State, e: Event)
    requires Buffered(s)
    ensures Buffered(Step(s, e))
  {
    hide Flatten, Scan, AllToText;
    var hs :| s.buffer == Flatten(hs) && s.count == |hs|;
    if e.Headers? {
      FlattenAppends(hs, e.slice);
      assert Step(s, e).buffer == Flatten(hs + e.slice) && Step(s, e).count == |hs + e.slice|;
    } else {
      NothingFlattened();
      assert s.buffer == Flatten(hs) && [] == Flatten([]);
    }
  }

  /**
   In every run, whatever bytes the headers hold (NULs included) and however the blocks end, a scan of the
   buffer finds every terminator it looks for and stays inside.
   */
  lemma {:induction false} EveryScanStaysInside(s: State, es: seq<Event>)
    requires Buffered(s)
    ensures Buffered(Run(s, es))
    ensures ScansInside(Run(s, es).count, Run(s, es).buffer)
    decreases |es|
  {
    hide Step;
    if es == [] {
      hide Flatten, ScansInside;
      var hs :| s.buffer == Flatten(hs) && s.count == |hs|;
      ScanStaysInside(hs);
    } else {
      StepKeepsBuffered(s, es[0]);
      hide Buffered, ScansInside;
      EveryScanStaysInside(Step(s, es[0]), es[1..]);
    }
  }

  // ------------------------------------------------------ blocks in a row

  /** A block of a run: its kind, its headers cut into slices, and what happens when it is done. */
  datatype SentBlock = SentBlock(block: Block, slices: seq<seq<Header>>, env: Environment)

  function Joined(slices: seq<seq<Header>>): seq<Header> {
    if slices == [] then [] else slices[0] + Joined(slices[1..])
  }

  function HeadersOf(b: SentBlock): seq<Header> {
    Joined(b.slices)
  }

  function EventsOf(b: SentBlock): seq<Event> {
    SliceEvents(b.slices) + [Done(b.block, b.env)]
  }

  function SliceEvents(slices: seq<seq<Header>>): seq<Event> {
    if slices == [] then [] else [Headers(slices[0])] + SliceEvents(slices[1..])
  }

  function AllEvents(bs: seq<SentBlock>): seq<Event> {
    if bs == [] then [] else EventsOf(bs[0]) + AllEvents(bs[1..])
  }

  /** Headers that can reach Python: without NULs, and UTF-8. */
  predicate Clean(hs: seq<Header>) {
    AllNulFree(hs) && AllToText(hs).Some?
  }

  predicate AllClean(bs: seq<SentBlock>) {
    bs == [] || (Clean(HeadersOf(bs[0])) && AllClean(bs[1..]))
  }

  function TotalHeaders(bs: seq<SentBlock>): nat {
    if bs == [] then 0 else |HeadersOf(bs[0])| + TotalHeaders(bs[1..])
  }

  /** The block-done callback gets as far as looking at the headers. */
  predicate Reached(b: SentBlock) {
    b.env.status.Some? && b.env.pythonAlive
  }

  predicate Calls(b: SentBlock) {
    b.block.Main? && Reached(b)
  }

  /** The block fails, and so the buffer is not cleared. */
  predicate KeepsBuffer(b: SentBlock) {
    !Reached(b) || (b.block.Main? && !b.env.callbackOk)
  }

  /** The call a block makes when `left` is in the buffer in front of its own headers. */
  function CallWith(left: seq<Header>, b: SentBlock): seq<Response>
    requires Clean(left + HeadersOf(b))
  {
    if Calls(b) then [Response(b.env.status.value, AllToText(left + HeadersOf(b)).value)] else []
  }

  function LeftBy(left: seq<Header>, b: SentBlock): seq<Header> {
    if KeepsBuffer(b) then left + HeadersOf(b) else []
  }

  /** What `_on_response` should see: of each main block that calls it, the headers of that block. */
  function Own(bs: seq<SentBlock>): seq<Response>
    requires AllClean(bs)
  {
    if bs == [] then []
    else
      assert [] + HeadersOf(bs[0]) == HeadersOf(bs[0]);
      CallWith([], bs[0]) + Own(bs[1..])
  }

  /** The main blocks that reach Python. */
  function Callers(bs: seq<SentBlock>): (cs: seq<SentBlock>)
    ensures forall k :: 0 <= k < |cs| ==> cs[k].block.Main? && cs[k].env.status.Some? && cs[k].env.pythonAlive
  {
    if bs == [] then []
    else if bs[0].block.Main? && bs[0].env.status.Some? && bs[0].env.pythonAlive then [bs[0]] + Callers(bs[1..])
    else Callers(bs[1..])
  }

  /** One call for each block, in order, with its status and its headers as they were sent. */
  predicate AllCarry(rs: seq<Response>, cs: seq<SentBlock>) {
    |rs| == |cs| && (rs != [] ==> Carries(rs[0], cs[0]) && AllCarry(rs[1..], cs[1..]))
  }

  lemma {:induction false} OwnCarries(bs: seq<SentBlock>)
    requires AllClean(bs)
    ensures AllCarry(Own(bs), Callers(bs))
  {
    if bs != [] {
      hide AllToText, HeadersOf, SentAs, AllNulFree;
      var b, rest := bs[0], bs[1..];
      OwnCarries(rest);
      TextIff(HeadersOf(b));
      assert [] + HeadersOf(b) == HeadersOf(b);
      if Calls(b) {
        var r := Response(b.env.status.value, AllToText(HeadersOf(b)).value);
        assert Own(bs) == [r] + Own(rest) && Callers(bs) == [b] + Callers(rest);
        CarryOneMore(r, b, Own(rest), Callers(rest));
      } else {
        assert Own(bs) == [] + Own(rest) == Own(rest);
      }
    }
  }

  lemma CarryOneMore(r: Response, b: SentBlock, rs: seq<Response>, cs: seq<SentBlock>)
    requires Carries(r, b) && AllCarry(rs, cs)
    ensures AllCarry([r] + rs, [b] + cs)
  {
    hide Carries;
    assert ([r] + rs)[1..] == rs && ([b] + cs)[1..] == cs;
  }

  lemma {:induction false} RunAppends(s: State, a: seq<Event>, b: seq<Event>)
    ensures Run(s, a + b) == Run(Run(s, a), b)
    decreases |a|
  {
    if a == [] {
      assert a + b == b;
    } else {
      assert (a + b)[1..] == a[1..] + b;
      RunAppends(Step(s, a[0]), a[1..], b);
    }
  }

  lemma {:induction false} SlicesJoin(s: State, slices: seq<seq<Header>>)
    ensures Run(s, SliceEvents(slices)) == OnHeaders(s, Joined(slices))
    decreases |slices|
  {
    if slices == [] {
      assert s.buffer + Flatten([]) == s.buffer;
    } else {
      SlicesJoin(OnHeaders(s, slices[0]), slices[1..]);
      FlattenAppends(slices[0], Joined(slices[1..]));
      AppendAssociates(s.buffer, Flatten(slices[0]), Flatten(Joined(slices[1..])));
      assert SliceEvents(slices)[1..] == SliceEvents(slices[1..]);
    }
  }

  lemma {:induction false} TextAppends(a: seq<Header>, b: seq<Header>)
    ensures AllToText(a + b).Some? <==> AllToText(a).Some? && AllToText(b).Some?
    ensures AllToText(a + b).Some? ==> AllToText(a + b).value == AllToText(a).value + AllToText(b).value
  {
    if a == [] {
      assert a + b == b;
      assert AllToText(b).Some? ==> [] + AllToText(b).value == AllToText(b).value;
    } else {
      hide ToText;
      assert (a + b)[1..] == a[1..] + b;
      TextAppends(a[1..], b);
      if AllToText(a + b).Some? {
        AppendAssociates([ToText(a[0]).value], AllToText(a[1..]).value, AllToText(b).value);
      }
    }
  }

  lemma CleanAppends(a: seq<Header>, b: seq<Header>)
    requires Clean(a) && Clean(b)
    ensures Clean(a + b)
  {
    NulFreeAppends(a, b);
    TextAppends(a, b);
  }

  /** The state in which `left` is in the buffer. */
  function Holding(left: seq<Header>, responses: seq<Response>): State {
    State(Flatten(left), |left|, responses)
  }

  lemma DoneCalls(left: seq<Header>, b: SentBlock, responses: seq<Response>)
    requires Clean(left + HeadersOf(b)) && |left + HeadersOf(b)| <= SSIZE_MAX
    ensures OnBlockDone(Holding(left + HeadersOf(b), responses), b.block, b.env).1
         == Holding(LeftBy(left, b), responses + CallWith(left, b))
  {
    ScanInvertsFlattenIff(left + HeadersOf(b));
    NothingFlattened();
    hide Flatten, Scan, AllToText, AllNulFree, HeadersOf;
    assert responses + [] == responses;
  }

  /** One block, however it is sliced, with `left` still in the buffer. */
  lemma BlockRuns(left: seq<Header>, b: SentBlock, responses: seq<Response>)
    requires Clean(left + HeadersOf(b)) && |left + HeadersOf(b)| <= SSIZE_MAX
    ensures Run(Holding(left, responses), EventsOf(b)) == Holding(LeftBy(left, b), responses + CallWith(left, b))
  {
    DoneCalls(left, b, responses);
    SlicesJoin(Holding(left, responses), b.slices);
    FlattenAppends(left, HeadersOf(b));
    hide OnBlockDone, Joined, SliceEvents, Clean, CallWith, LeftBy, Flatten;
    var done := Done(b.block, b.env);
    RunAppends(Holding(left, responses), SliceEvents(b.slices), [done]);
    var s := OnHeaders(Holding(left, responses), HeadersOf(b));
    assert [done][1..] == [] && Run(s, [done]) == Run(Step(s, done), []);
  }

  /** A call of `_on_response` with the status of the block and its headers as they were sent. */
  predicate Carries(r: Response, b: SentBlock) {
    b.env.status == Some(r.status) && SentAs(r.headers, HeadersOf(b))
  }

  /** One block into an empty buffer: a main block reaches Python whole, and the buffer is empty again. */
  lemma BlockIsDelivered(b: SentBlock, responses: seq<Response>)
    requires Clean(HeadersOf(b)) && |HeadersOf(b)| <= SSIZE_MAX && !KeepsBuffer(b)
    ensures Run(State([], 0, responses), EventsOf(b))
         == State([], 0, responses + if b.block.Main? then [Response(b.env.status.value, AllToText(HeadersOf(b)).value)]
                                     else [])
    ensures b.block.Main? ==> Carries(Response(b.env.status.value, AllToText(HeadersOf(b)).value), b)
  {
    TextIff(HeadersOf(b));
    hide SentAs;
    hide Flatten, AllToText, AllNulFree, Run, EventsOf, Joined;
    assert [] + HeadersOf(b) == HeadersOf(b);
    NothingFlattened();
    BlockRuns([], b, responses);
  }

  /** What `_on_response` sees in a run that starts with `left` in the buffer. */
  function Seen(left: seq<Header>, bs: seq<SentBlock>): seq<Response>
    requires Clean(left) && AllClean(bs)
    decreases |bs|
  {
    if bs == [] then []
    else
      CleanAppends(left, HeadersOf(bs[0]));
      CallWith(left, bs[0]) + Seen(LeftBy(left, bs[0]), bs[1..])
  }

  lemma {:induction false} RunSees(left: seq<Header>, bs: seq<SentBlock>, responses: seq<Response>)
    requires Clean(left) && AllClean(bs) && |left| + TotalHeaders(bs) <= SSIZE_MAX
    ensures Run(Holding(left, responses), AllEvents(bs)).responses == responses + Seen(left, bs)
    decreases |bs|
  {
    hide Run, Clean, EventsOf, HeadersOf, Flatten, KeepsBuffer, Calls;
    if bs == [] {
      EmptyRun(Holding(left, responses));
      assert responses + [] == responses;
    } else {
      var b, rest := bs[0], bs[1..];
      CleanAppends(left, HeadersOf(b));
      NothingIsClean();
      BlockRuns(left, b, responses);
      var calls, left' := CallWith(left, b), LeftBy(left, b);
      RunAppends(Holding(left, responses), EventsOf(b), AllEvents(rest));
      RunSees(left', rest, responses + calls);
      AppendAssociates(responses, calls, Seen(left', rest));
    }
  }

  lemma EmptyRun(s: State)
    ensures Run(s, []) == s
  {
  }

  lemma NothingIsClean()
    ensures Clean([])
  {
  }

  /** A later block calls `_on_response` before the headers left behind (if `dirty`) have been cleared. */
  predicate LeaksFrom(dirty: bool, bs: seq<SentBlock>)
    decreases |bs|
  {
    bs != [] &&
    ((dirty && Calls(bs[0])) || LeaksFrom(KeepsBuffer(bs[0]) && (dirty || HeadersOf(bs[0]) != []), bs[1..]))
  }

  lemma {:induction false} SeenIsOwnIff(left: seq<Header>, bs: seq<SentBlock>)
    requires Clean(left) && AllClean(bs)
    ensures |Seen(left, bs)| == |Own(bs)|
    ensures Seen(left, bs) == Own(bs) <==> !LeaksFrom(left != [], bs)
    decreases |bs|
  {
    hide Clean, HeadersOf, AllToText, KeepsBuffer, Calls, AllNulFree;
    if bs != [] {
      var b, rest := bs[0], bs[1..];
      CleanAppends(left, HeadersOf(b));
      NothingIsClean();
      assert [] + HeadersOf(b) == HeadersOf(b);
      CallIsOwnIff(left, b);
      SeenIsOwnIff(LeftBy(left, b), rest);
      SameParts(CallWith(left, b), Seen(LeftBy(left, b), rest), CallWith([], b), Own(rest));
    }
  }

  lemma CallIsOwnIff(left: seq<Header>, b: SentBlock)
    requires Clean(left + HeadersOf(b)) && Clean([] + HeadersOf(b))
    ensures |CallWith(left, b)| == |CallWith([], b)|
    ensures CallWith(left, b) == CallWith([], b) <==> left == [] || !Calls(b)
  {
    assert [] + HeadersOf(b) == HeadersOf(b);
    hide Clean, HeadersOf, AllToText;
  }

  lemma SameParts<T>(a: seq<T>, b: seq<T>, c: seq<T>, d: seq<T>)
    requires |a| == |c|
    ensures |a + b| == |c + d| <==> |b| == |d|
    ensures a + b == c + d <==> a == c && b == d
  {
    AppendSplits(a, b);
    AppendSplits(c, d);
  }

  predicate AllKeepBuffer(bs: seq<SentBlock>, i: int, j: int)
    requires 0 <= i <= j <= |bs|
  {
    forall k :: i <= k < j ==> KeepsBuffer(bs[k])
  }

  /** Headers of block `i` are still in the buffer when block `j` calls `_on_response`. */
  predicate LeaksInto(bs: seq<SentBlock>, i: int, j: int) {
    0 <= i < j < |bs| && HeadersOf(bs[i]) != [] && AllKeepBuffer(bs, i, j) && Calls(bs[j])
  }

  /** What was in the buffer before the run is still there when block `j` calls `_on_response`. */
  predicate LeaksFromStart(bs: seq<SentBlock>, j: int) {
    0 <= j < |bs| && AllKeepBuffer(bs, 0, j) && Calls(bs[j])
  }

  lemma LeaksFromIff(dirty: bool, bs: seq<SentBlock>)
    ensures LeaksFrom(dirty, bs) <==>
              || (exists i, j :: LeaksInto(bs, i, j))
              || (dirty && exists j :: LeaksFromStart(bs, j))
  {
    hide LeaksFrom, LeaksInto, LeaksFromStart;
    if LeaksFrom(dirty, bs) {
      LeakIsFound(dirty, bs);
    }
    forall i, j | LeaksInto(bs, i, j) ensures LeaksFrom(dirty, bs) {
      LeakShows(dirty, bs, i, j);
    }
    forall j | dirty && LeaksFromStart(bs, j) ensures LeaksFrom(dirty, bs) {
      StartLeakShows(bs, j);
    }
  }

  lemma {:induction false} LeakIsFound(dirty: bool, bs: seq<SentBlock>)
    requires LeaksFrom(dirty, bs)
    ensures (exists i, j :: LeaksInto(bs, i, j)) || (dirty && exists j :: LeaksFromStart(bs, j))
    decreases |bs|
  {
    hide KeepsBuffer, Calls, HeadersOf, AllKeepBuffer;
    var rest, dirty' := bs[1..], KeepsBuffer(bs[0]) && (dirty || HeadersOf(bs[0]) != []);
    if dirty && Calls(bs[0]) {
      NothingBetween(bs);
      assert LeaksFromStart(bs, 0);
    } else {
      LeakIsFound(dirty', rest);
      if i, j :| LeaksInto(rest, i, j) {
        Shifted(bs, i + 1, j + 1);
        assert LeaksInto(bs, i + 1, j + 1);
      } else {
        var j :| LeaksFromStart(rest, j);
        Prepended(bs, j + 1);
        assert if dirty then LeaksFromStart(bs, j + 1) else LeaksInto(bs, 0, j + 1);
      }
    }
  }

  lemma {:induction false} StartLeakShows(bs: seq<SentBlock>, j: int)
    requires LeaksFromStart(bs, j)
    ensures LeaksFrom(true, bs)
    decreases |bs|
  {
    hide KeepsBuffer, Calls, HeadersOf, AllKeepBuffer;
    if j > 0 {
      Prepended(bs, j);
      StartLeakShows(bs[1..], j - 1);
    }
  }

  lemma {:induction false} LeakShows(dirty: bool, bs: seq<SentBlock>, i: int, j: int)
    requires LeaksInto(bs, i, j)
    ensures LeaksFrom(dirty, bs)
    decreases |bs|
  {
    hide KeepsBuffer, Calls, HeadersOf, AllKeepBuffer;
    var rest := bs[1..];
    if i > 0 {
      Shifted(bs, i, j);
      LeakShows(KeepsBuffer(bs[0]) && (dirty || HeadersOf(bs[0]) != []), rest, i - 1, j - 1);
    } else {
      Prepended(bs, j);
      StartLeakShows(rest, j - 1);
    }
  }

  lemma NothingBetween(bs: seq<SentBlock>)
    ensures AllKeepBuffer(bs, 0, 0)
  {
  }

  lemma Shifted(bs: seq<SentBlock>, i: int, j: int)
    requires 0 < i <= j <= |bs|
    ensures AllKeepBuffer(bs, i, j) <==> AllKeepBuffer(bs[1..], i - 1, j - 1)
  {
    hide KeepsBuffer;
    if AllKeepBuffer(bs[1..], i - 1, j - 1) {
      forall k | i <= k < j ensures KeepsBuffer(bs[k]) {
        assert bs[1..][k - 1] == bs[k];
      }
    }
  }

  lemma Prepended(bs: seq<SentBlock>, j: int)
    requires 0 < j <= |bs|
    ensures AllKeepBuffer(bs, 0, j) <==> KeepsBuffer(bs[0]) && AllKeepBuffer(bs[1..], 0, j - 1)
  {
    hide KeepsBuffer;
    Shifted(bs, 1, j);
  }

  /**
   Whole runs, exactly: `_on_response` sees of every main block its own headers and no others, in order, if
   and only if no block calls it while headers of an earlier block are left in the buffer. They are left by
   a block that fails, until a block succeeds; a successful block that is not a main block swallows them.
   */
  lemma EachSeesItsOwnIff(bs: seq<SentBlock>)
    requires AllClean(bs) && TotalHeaders(bs) <= SSIZE_MAX
    ensures Run(State([], 0, []), AllEvents(bs)).responses == Own(bs) <==> !exists i, j :: LeaksInto(bs, i, j)
  {
    NothingFlattened();
    NothingIsClean();
    hide Run, AllEvents, Flatten, Clean, LeaksInto;
    RunSees([], bs, []);
    SeenIsOwnIff([], bs);
    LeaksFromIff(false, bs);
    assert [] + Seen([], bs) == Seen([], bs);
  }

  /**
   When every block has a status and Python is alive, leaks are between neighbours: from a main block with
   headers whose callback raises into a main block right behind it.
   */
  lemma NeighboursSuffice(bs: seq<SentBlock>)
    requires forall k :: 0 <= k < |bs| ==> Reached(bs[k])
    ensures (exists i, j :: LeaksInto(bs, i, j)) <==>
            exists i :: 0 <= i < |bs| - 1 && RaisesWithHeaders(bs[i]) && bs[i + 1].block.Main?
  {
    hide HeadersOf, Reached;
    if i, j :| LeaksInto(bs, i, j) {
      assert KeepsBuffer(bs[i]) && Reached(bs[i]);
      assert RaisesWithHeaders(bs[i]);
      if j > i + 1 {
        assert KeepsBuffer(bs[i + 1]) && Reached(bs[i + 1]);
      }
    }
    if i :| 0 <= i < |bs| - 1 && RaisesWithHeaders(bs[i]) && bs[i + 1].block.Main? {
      assert LeaksInto(bs, i, i + 1);
    }
  }

  predicate RaisesWithHeaders(b: SentBlock) {
    b.block.Main? && !b.env.callbackOk && HeadersOf(b) != []
  }

  predicate AllDeliverable(bs: seq<SentBlock>) {
    bs == [] ||
    (Clean(HeadersOf(bs[0])) && |HeadersOf(bs[0])| <= SSIZE_MAX && !KeepsBuffer(bs[0]) && AllDeliverable(bs[1..]))
  }

  lemma {:induction false} DeliverableIsClean(bs: seq<SentBlock>)
    requires AllDeliverable(bs)
    ensures AllClean(bs)
  {
    hide Clean, HeadersOf, KeepsBuffer;
    if bs != [] {
      DeliverableIsClean(bs[1..]);
    }
  }

  /** If no block fails, every main block is delivered once, in order, and the buffer ends up empty. */
  lemma {:induction false} BlocksAreDelivered(bs: seq<SentBlock>, responses: seq<Response>)
    requires AllDeliverable(bs)
    ensures AllClean(bs)
    ensures Run(State([], 0, responses), AllEvents(bs)) == State([], 0, responses + Own(bs))
    ensures AllCarry(Own(bs), Callers(bs))
    decreases |bs|
  {
    DeliverableIsClean(bs);
    OwnCarries(bs);
    hide AllCarry, Callers;
    if bs == [] {
      assert responses + [] == responses;
    } else {
      hide Run, EventsOf, HeadersOf, Clean, KeepsBuffer, Flatten;
      var b := bs[0];
      assert [] + HeadersOf(b) == HeadersOf(b);
      var calls := CallWith([], b);
      NothingFlattened();
      BlockRuns([], b, responses);
      RunAppends(State([], 0, responses), EventsOf(b), AllEvents(bs[1..]));
      BlocksAreDelivered(bs[1..], responses + calls);
      AppendAssociates(responses, calls, Own(bs[1..]));
    }
  }

  /** The smallest leak: a main block whose callback raises, and another main block. */
  lemma RaisingBlockLeaksIntoNext(a: SentBlock, b: SentBlock)
    requires Clean(HeadersOf(a)) && Clean(HeadersOf(b)) && |HeadersOf(a)| + |HeadersOf(b)| <= SSIZE_MAX
    requires Calls(a) && !a.env.callbackOk && Calls(b) && b.env.callbackOk
    ensures var ta, tb := AllToText(HeadersOf(a)).value, AllToText(HeadersOf(b)).value;
            var responses := [Response(a.env.status.value, ta)] + [Response(b.env.status.value, ta + tb)];
            Run(State([], 0, []), EventsOf(a) + EventsOf(b)) == State([], 0, responses)
  {
    var ta, tb := AllToText(HeadersOf(a)).value, AllToText(HeadersOf(b)).value;
    var first := [Response(a.env.status.value, ta)];
    NothingFlattened();
    hide Run, EventsOf, Flatten, AllToText, AllNulFree, Joined;
    assert [] + HeadersOf(a) == HeadersOf(a) && [] + first == first;
    BlockRuns([], a, []);
    CleanAppends(HeadersOf(a), HeadersOf(b));
    TextAppends(HeadersOf(a), HeadersOf(b));
    BlockRuns(HeadersOf(a), b, first);
    RunAppends(State([], 0, []), EventsOf(a), EventsOf(b));
  }

  // ------------------------------------------------- undecodable headers

  lemma {:induction false} StrNLenExtends(a: seq<Byte>, b: seq<Byte>)
    requires StrNLen(a) < |a|
    ensures StrNLen(a + b) == StrNLen(a)
  {
    if a[0] != 0 {
      assert (a + b)[1..] == a[1..] + b;
      StrNLenExtends(a[1..], b);
    }
  }

  /** One string is cut off alike, however the buffer goes on. */
  lemma CutExtends(a: seq<Byte>, b: seq<Byte>)
    requires StrNLen(a) < |a|
    ensures (a + b)[..StrNLen(a + b)] == a[..StrNLen(a)]
    ensures Advance(a + b, StrNLen(a + b) + 1) == a[StrNLen(a) + 1..] + b
  {
    StrNLenExtends(a, b);
    hide StrNLen;
  }

  lemma TakeExtends(a: seq<Byte>, b: seq<Byte>)
    requires ScansInside(1, a)
    ensures var (h, rest) := TakeHeader(a); TakeHeader(a + b) == (h, rest + b)
  {
    hide StrNLen;
    var mid := a[StrNLen(a) + 1..];
    CutExtends(a, b);
    CutExtends(mid, b);
  }

  lemma ScansInsideStep(n: nat, a: seq<Byte>)
    requires n > 0 && ScansInside(n, a)
    ensures ScansInside(1, a) && ScansInside(n - 1, TakeHeader(a).1)
  {
    hide StrNLen;
    var mid := a[StrNLen(a) + 1..];
    assert ScansInside(0, mid[StrNLen(mid) + 1..]);
  }

  lemma ScanStep(n: nat, cursor: seq<Byte>)
    ensures Scan(0, cursor) == []
    ensures n > 0 ==> Scan(n, cursor) == [TakeHeader(cursor).0] + Scan(n - 1, TakeHeader(cursor).1)
  {
    hide TakeHeader;
  }

  /** Headers that were scanned inside the buffer are scanned alike when more is appended. */
  lemma {:induction false} ScanExtends(n: nat, k: nat, a: seq<Byte>, b: seq<Byte>) returns (more: seq<Header>)
    requires ScansInside(n, a)
    ensures Scan(n + k, a + b) == Scan(n, a) + more
    decreases n
  {
    hide *;
    ScanStep(n, a);
    ScanStep(n + k, a + b);
    if n == 0 {
      more := Scan(k, a + b);
      assert [] + more == more;
    } else {
      ScansInsideStep(n, a);
      TakeExtends(a, b);
      var (h, rest) := TakeHeader(a);
      more := ScanExtends(n - 1, k, rest, b);
      assert Scan(n + k, a + b) == [h] + Scan(n - 1 + k, rest + b);
      AppendAssociates([h], Scan(n - 1, rest), more);
    }
  }

  /** The buffer holds a name or value that is not UTF-8. */
  predicate Undecodable(s: State) {
    AllToText(Scan(s.count, s.buffer)).None?
  }

  lemma MoreIsUndecodable(s: State, hs: seq<Header>)
    requires Buffered(s) && Undecodable(s)
    ensures Undecodable(OnHeaders(s, hs))
  {
    hide Flatten, ScansInside, Scan, AllToText;
    var was :| s.buffer == Flatten(was) && s.count == |was|;
    ScanStaysInside(was);
    var more := ScanExtends(s.count, |hs|, s.buffer, Flatten(hs));
    TextAppends(Scan(s.count, s.buffer), more);
  }

  lemma StepKeepsUndecodable(s: State, e: Event)
    requires Buffered(s) && Undecodable(s)
    ensures Undecodable(Step(s, e)) && Step(s, e).responses == s.responses && s.buffer <= Step(s, e).buffer
  {
    hide Flatten, Scan, AllToText, Buffered;
    if e.Headers? {
      MoreIsUndecodable(s, e.slice);
    }
  }

  /**
   Whatever bytes the headers hold: once a buffered name or value is not UTF-8, nothing is cleared away any
   more, every later block of the run fails, and `_on_response` is not called again.
   */
  lemma {:induction false} UndecodableBlockBlocksAll(s: State, es: seq<Event>)
    requires Buffered(s) && Undecodable(s)
    ensures Undecodable(Run(s, es)) && Run(s, es).responses == s.responses && s.buffer <= Run(s, es).buffer
    decreases |es|
  {
    hide Step, Buffered, Undecodable;
    if es != [] {
      StepKeepsBuffered(s, es[0]);
      StepKeepsUndecodable(s, es[0]);
      UndecodableBlockBlocksAll(Step(s, es[0]), es[1..]);
    }
  }
}
