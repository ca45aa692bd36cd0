/**
 What the decoder's mutually recursive functions do to the bytes that remain: the value or the error,
 and the bytes left in either case. `depth` is `current_depth` on entry.
 */
module CborDecoderSpec {
  import opened Octets
  import opened PyObjects
  import opened CborElement
  import opened CborWire
  import Utf8

  const MAX_DECODE_DEPTH: nat := 128

  datatype Error =
    | RecursionLimit     // nesting deeper than MAX_DECODE_DEPTH
    | InvalidCbor        // the next bytes are no element
    | UnexpectedType     // an element that may not stand here
    | TooLarge           // a count or length above PY_SSIZE_T_MAX
    | BadText            // text that is not UTF-8
    | UnhashableKey
    | UnsupportedTag

  /** A result together with the bytes not consumed, which are defined after an error as well. */
  datatype Outcome = Ok(value: PyObject, rest: seq<Byte>) | Err(error: Error, rest: seq<Byte>)

  function StringOutcome(isText: bool, payload: seq<Byte>, rest: seq<Byte>): (r: Outcome) {
    if |payload| > SSIZE_MAX then Err(TooLarge, rest)
    else if !isText then Ok(PyBytes(payload), rest)
    else
      match Utf8.Decode(payload)
      case None => Err(BadText, rest)
      case Some(s) => Ok(PyStr(s), rest)
  }

  /** `pop_next_bytes_val` and `pop_next_text_val`. */
  function PopString(isText: bool, bs: seq<Byte>): (r: Outcome)
    ensures |r.rest| <= |bs|
    ensures r.Ok? ==> |r.rest| < |bs| && (if isText then r.value.PyStr? else r.value.PyBytes?)
  {
    match NextElement(bs)
    case NoElement => Err(InvalidCbor, bs)
    case Next(e, len) =>
      if isText && e.TextStr? then StringOutcome(true, e.bytes, bs[len..])
      else if !isText && e.ByteStr? then StringOutcome(false, e.bytes, bs[len..])
      else Err(UnexpectedType, bs)
  }

  predicate AtBreak(bs: seq<Byte>) {
    var n := NextElement(bs);
    n.Next? && n.e.Break?
  }

  /** The chunks of an indefinite-length string, joined to `done`, up to the break. */
  function PopChunks(isText: bool, done: PyObject, bs: seq<Byte>): (r: Outcome)
    requires if isText then done.PyStr? else done.PyBytes?
    ensures |r.rest| <= |bs|
    decreases |bs|
  {
    match NextElement(bs)
    case NoElement => Err(InvalidCbor, bs)
    case Next(e, len) =>
      if e.Break? then Ok(done, bs[len..])
      else
        match PopString(isText, bs)
        case Err(error, rest) => Err(error, rest)
        case Ok(part, rest) => PopChunks(isText, Join(isText, done, part), rest)
  }

  /** `inf_bytes_to_py_bytes` and `inf_string_to_py_str`. */
  function PopIndefString(isText: bool, bs: seq<Byte>): (r: Outcome)
    ensures |r.rest| <= |bs|
    ensures r.Ok? ==> |r.rest| < |bs|
  {
    match NextElement(bs)
    case NoElement => Err(InvalidCbor, bs)
    case Next(e, len) =>
      if (if isText then e.IndefTextStart? else e.IndefBytesStart?) then
        PopChunks(isText, if isText then PyStr([]) else PyBytes([]), bs[len..])
      else Err(UnexpectedType, bs)
  }

  /** `pop_next_data_item_to_pyobject`. */
  function PopItem(bs: seq<Byte>, depth: nat): (r: Outcome)
    ensures |r.rest| <= |bs|
    ensures r.Ok? ==> |r.rest| < |bs|
    decreases |bs|, 3
  {
    if depth >= MAX_DECODE_DEPTH then Err(RecursionLimit, bs)
    else
      match NextElement(bs)
      case NoElement => Err(InvalidCbor, bs)
      case Next(e, len) => PopElement(e, len, bs, depth + 1)
  }

  /** The dispatch on the next element, with `current_depth` already raised. */
  function PopElement(e: Element, len: nat, bs: seq<Byte>, depth: nat): (r: Outcome)
    requires NextElement(bs) == Next(e, len)
    ensures |r.rest| <= |bs|
    ensures r.Ok? ==> |r.rest| < |bs|
    decreases |bs|, 2
  {
    match e
    case ByteStr(_) => PopString(false, bs)
    case TextStr(_) => PopString(true, bs)
    case MapStart(_) => PopDict(bs, depth)
    case IndefMapStart => PopDict(bs, depth)
    case ArrayStart(_) => PopList(bs, depth)
    case IndefArrayStart => PopList(bs, depth)
    case IndefBytesStart => PopIndefString(false, bs)
    case IndefTextStart => PopIndefString(true, bs)
    case TagStart(_) => PopTag(bs, depth)
    case Break => Err(UnexpectedType, bs)
    case _ => Ok(ScalarMeaning(e).value, bs[len..])
  }

  /** `pop_next_tag_to_pyobject` with the default epoch callback, which returns its argument. */
  function PopTag(bs: seq<Byte>, depth: nat): (r: Outcome)
    ensures |r.rest| <= |bs|
    ensures r.Ok? ==> |r.rest| < |bs|
    decreases |bs|, 1
  {
    match NextElement(bs)
    case NoElement => Err(InvalidCbor, bs)
    case Next(e, len) =>
      if !e.TagStart? then Err(UnexpectedType, bs)
      else if e.n != EPOCH_TIME then Err(UnsupportedTag, bs[len..])
      else
        match NextElement(bs[len..])
        case NoElement => Err(InvalidCbor, bs[len..])
        case Next(e', _) =>
          if IsNumber(e') then PopItem(bs[len..], depth) else Err(UnexpectedType, bs[len..])
  }

  /** `pop_next_data_item_to_py_list`, also the direct entry point `pop_next_list`. */
  function PopList(bs: seq<Byte>, depth: nat): (r: Outcome)
    ensures |r.rest| <= |bs|
    ensures r.Ok? ==> |r.rest| < |bs|
    decreases |bs|, 1
  {
    match NextElement(bs)
    case NoElement => Err(InvalidCbor, bs)
    case Next(e, len) =>
      if e.ArrayStart? then
        if e.n > SSIZE_MAX then Err(TooLarge, bs[len..]) else PopItems(e.n, [], bs[len..], depth)
      else if e.IndefArrayStart? then PopItemsUntilBreak([], bs[len..], depth)
      else Err(UnexpectedType, bs)
  }

  function PopItems(n: nat, done: seq<PyObject>, bs: seq<Byte>, depth: nat): (r: Outcome)
    ensures |r.rest| <= |bs|
    decreases |bs|, 4, n
  {
    if n == 0 then Ok(PyList(done), bs)
    else
      match PopItem(bs, depth)
      case Err(error, rest) => Err(error, rest)
      case Ok(v, rest) => PopItems(n - 1, done + [v], rest, depth)
  }

  function PopItemsUntilBreak(done: seq<PyObject>, bs: seq<Byte>, depth: nat): (r: Outcome)
    ensures |r.rest| <= |bs|
    decreases |bs|, 4
  {
    if AtBreak(bs) then Ok(PyList(done), bs[1..])
    else
      match PopItem(bs, depth)
      case Err(error, rest) => Err(error, rest)
      case Ok(v, rest) => PopItemsUntilBreak(done + [v], rest, depth)
  }

  /** `pop_next_data_item_to_py_dict`, also the direct entry point `pop_next_map`. */
  function PopDict(bs: seq<Byte>, depth: nat): (r: Outcome)
    ensures |r.rest| <= |bs|
    ensures r.Ok? ==> |r.rest| < |bs|
    decreases |bs|, 1
  {
    match NextElement(bs)
    case NoElement => Err(InvalidCbor, bs)
    case Next(e, len) =>
      if e.MapStart? then
        if e.n > SSIZE_MAX then Err(TooLarge, bs[len..]) else PopEntries(e.n, [], bs[len..], depth)
      else if e.IndefMapStart? then PopEntriesUntilBreak([], bs[len..], depth)
      else Err(UnexpectedType, bs)
  }

  /**
   One turn of either map loop: the value is popped even when the key failed, a failure of the value
   then hides that of the key, and an unhashable key is only noticed at the end.
   */
  datatype Turn = Stop(error: Error, rest: seq<Byte>) | Go(entries: Entries, rest: seq<Byte>)

  function PopEntry(done: Entries, bs: seq<Byte>, depth: nat): (r: Turn)
    ensures |r.rest| <= |bs|
    ensures r.Go? ==> |r.rest| < |bs|
    decreases |bs|, 4
  {
    var key := PopItem(bs, depth);
    var val := PopItem(key.rest, depth);
    if val.Err? then Stop(val.error, val.rest)
    else if key.Err? then Stop(key.error, val.rest)
    else if !Hashable(key.value) then Stop(UnhashableKey, val.rest)
    else Go(SetItem(done, key.value, val.value), val.rest)
  }

  function PopEntries(n: nat, done: Entries, bs: seq<Byte>, depth: nat): (r: Outcome)
    ensures |r.rest| <= |bs|
    decreases |bs|, 5, n
  {
    if n == 0 then Ok(PyDict(done), bs)
    else
      match PopEntry(done, bs, depth)
      case Stop(error, rest) => Err(error, rest)
      case Go(entries, rest) => PopEntries(n - 1, entries, rest, depth)
  }

  function PopEntriesUntilBreak(done: Entries, bs: seq<Byte>, depth: nat): (r: Outcome)
    ensures |r.rest| <= |bs|
    decreases |bs|, 5
  {
    if AtBreak(bs) then Ok(PyDict(done), bs[1..])
    else
      match PopEntry(done, bs, depth)
      case Stop(error, rest) => Err(error, rest)
      case Go(entries, rest) => PopEntriesUntilBreak(entries, rest, depth)
  }
}
