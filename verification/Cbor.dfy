/**
 * The CBOR subset of RFC 8949 that the server reads and writes, as functions.
 * Reads past the end of the buffer behave as in the source's language: a
 * missing byte is `undefined`, which bit operations take as 0 and arithmetic
 * turns into NaN, so that a position itself can become NaN.
 */
module Cbor {
  import opened Common
  import opened Utf8

  datatype Error = Truncated | TruncatedBytes | TruncatedText | BadKey | BadMajor | BadLength | Trailing | Unencodable

  datatype Result<+T> = Ok(value: T) | Err(error: Error)

  /** `Undefined` and `NaN` only come out of reads past the end. */
  datatype Value =
    | Int(n: int)
    | NaN
    | Undefined
    | Text(utf8: Bytes)
    | Blob(bytes: Bytes)
    | List(items: seq<Value>)
    | Dict(entries: seq<Entry>)

  /** Entries of a map, in insertion order. */
  datatype Entry = Entry(key: Value, value: Value)

  /** A position in the buffer; `Nowhere` is the position NaN. */
  datatype Pos = Index(i: nat) | Nowhere

  datatype Length = Count(n: nat) | NoLength | NotALength

  /**
   * What happened during a reading: the bytes taken, the lengths read with the
   * bytes each took after the first, the calls for an item, the raw contents
   * of texts, and the pairs put into maps.
   */
  datatype Log =
    | Nothing
    | Stray
    | Took(lo: nat, hi: nat)
    | Headed(len: nat, size: nat)
    | Raw(text: Bytes)
    | Filled(pairs: seq<Entry>)
    | Call(body: Log)
    | Then(first: Log, second: Log)

  /** A value read, where reading stopped, and the log of it. */
  datatype Parsed<+T> = Parsed(value: T, next: Pos, log: Log)

  /** `buf[i]` in a bit operation. */
  function BitsAt(buf: Bytes, i: nat): Byte {
    if i < |buf| then buf[i] else 0
  }

  function ReadLength(buf: Bytes, at: nat, info: nat): Result<Parsed<Length>> {
    if info < 24 then Ok(Parsed(Count(info), Index(at), Headed(info, 0)))
    else if info == 24 then
      var len := if at < |buf| then Count(buf[at]) else NoLength;
      Ok(Parsed(len, Index(at + 1), LengthLog(len, at, 1)))
    else if info == 25 then
      var len := Count(BitsAt(buf, at) * 0x100 + BitsAt(buf, at + 1));
      Ok(Parsed(len, Index(at + 2), LengthLog(len, at, 2)))
    else if info == 26 then
      var low := BitsAt(buf, at + 1) * 0x10000 + BitsAt(buf, at + 2) * 0x100 + BitsAt(buf, at + 3);
      var len := if at < |buf| then Count(buf[at] * 0x1000000 + low) else NotALength;
      Ok(Parsed(len, Index(at + 4), LengthLog(len, at, 4)))
    else Err(BadLength)
  }

  function LengthLog(len: Length, at: nat, size: nat): Log {
    Then(Took(at, at + size), if len.Count? then Headed(len.n, size) else Nothing)
  }

  predicate IsKey(v: Value) {
    v.Int? || v.NaN? || v.Text?
  }

  /** `map.set(key, value)`: a key that is present keeps its place and takes the new value. */
  function Put(entries: seq<Entry>, e: Entry): seq<Entry>
    decreases |entries|
  {
    if entries == [] then [e]
    else if entries[0].key == e.key then [e] + entries[1..]
    else [entries[0]] + Put(entries[1..], e)
  }

  function FromPairs(pairs: seq<Entry>): seq<Entry>
    decreases |pairs|
  {
    if pairs == [] then [] else Put(FromPairs(pairs[..|pairs| - 1]), pairs[|pairs| - 1])
  }

  /** How far a position can still move. */
  function Left(buf: Bytes, at: Pos): nat {
    if at.Index? && at.i <= |buf| then |buf| - at.i + 1 else 0
  }

  predicate Beyond(at: Pos, next: Pos) {
    next.Nowhere? || (at.Index? && next.i > at.i)
  }

  predicate NotBefore(at: Pos, next: Pos) {
    next == at || Beyond(at, next)
  }

  function Num(len: Length): Value {
    match len
    case Count(n) => Int(n)
    case NoLength => Undefined
    case NotALength => NaN
  }

  function Negative(len: Length): Value {
    if len.Count? then Int(-1 - len.n) else NaN
  }

  function DecodeItem(buf: Bytes, at: Pos): (r: Result<Parsed<Value>>)
    ensures r.Ok? ==> Beyond(at, r.value.next)
    decreases Left(buf, at), 0, 0
  {
    if at.Nowhere? then Ok(Parsed(Int(0), Nowhere, Call(Stray)))
    else if at.i >= |buf| then Err(Truncated)
    else
      match ReadLength(buf, at.i + 1, buf[at.i] % 32)
      case Err(e) => Err(e)
      case Ok(head) =>
        match DecodeContent(buf, buf[at.i] / 32, head.value, head.next)
        case Err(e) => Err(e)
        case Ok(rest) => Ok(Parsed(rest.value, rest.next, Call(Then(Took(at.i, at.i + 1), Then(head.log, rest.log)))))
  }

  /** What follows a head, by major type. */
  function DecodeContent(buf: Bytes, major: nat, len: Length, offset: Pos): (r: Result<Parsed<Value>>)
    requires offset.Index?
    ensures r.Ok? ==> NotBefore(offset, r.value.next)
    decreases Left(buf, offset), 2, 0
  {
    if major == 0 then Ok(Parsed(Num(len), offset, Nothing))
    else if major == 1 then Ok(Parsed(Negative(len), offset, Nothing))
    else if major == 2 then
      match Slice(buf, len, offset.i)
      case None => Err(TruncatedBytes)
      case Some(s) => Ok(Parsed(Blob(s.value), s.next, s.log))
    else if major == 3 then
      match Slice(buf, len, offset.i)
      case None => Err(TruncatedText)
      case Some(s) => Ok(Parsed(Text(DecodeText(s.value)), s.next, Then(s.log, Raw(s.value))))
    else if major == 4 then
      match DecodeItems(buf, offset, Times(len))
      case Err(e) => Err(e)
      case Ok(rest) => Ok(Parsed(List(rest.value), rest.next, rest.log))
    else if major == 5 then
      match DecodePairs(buf, offset, Times(len))
      case Err(e) => Err(e)
      case Ok(rest) => Ok(Parsed(Dict(FromPairs(rest.value)), rest.next, Then(rest.log, Filled(rest.value))))
    else Err(BadMajor)
  }

  /** How often a loop `i < len` runs. */
  function Times(len: Length): nat {
    if len.Count? then len.n else 0
  }

  /** `buf.slice(at, at + len)` behind the check `at + len > buf.length`, which a NaN passes. */
  function Slice(buf: Bytes, len: Length, at: nat): Option<Parsed<Bytes>> {
    if !len.Count? then Some(Parsed([], Nowhere, Nothing))
    else if at + len.n > |buf| then None
    else Some(Parsed(buf[at..at + len.n], Index(at + len.n), Took(at, at + len.n)))
  }

  /** The array loop. */
  function DecodeItems(buf: Bytes, at: Pos, count: nat): (r: Result<Parsed<seq<Value>>>)
    ensures r.Ok? ==> NotBefore(at, r.value.next)
    decreases Left(buf, at), 1, count
  {
    if count == 0 then Ok(Parsed([], at, Nothing))
    else
      match DecodeItem(buf, at)
      case Err(e) => Err(e)
      case Ok(item) =>
        match DecodeItems(buf, item.next, count - 1)
        case Err(e) => Err(e)
        case Ok(rest) => Ok(Parsed([item.value] + rest.value, rest.next, Then(item.log, rest.log)))
  }

  /** The map loop, before the entries go into the map. */
  function DecodePairs(buf: Bytes, at: Pos, count: nat): (r: Result<Parsed<seq<Entry>>>)
    ensures r.Ok? ==> NotBefore(at, r.value.next)
    decreases Left(buf, at), 1, count
  {
    if count == 0 then Ok(Parsed([], at, Nothing))
    else
      match DecodeItem(buf, at)
      case Err(e) => Err(e)
      case Ok(key) =>
        if !IsKey(key.value) then Err(BadKey)
        else
          match DecodeItem(buf, key.next)
          case Err(e) => Err(e)
          case Ok(val) =>
            match DecodePairs(buf, val.next, count - 1)
            case Err(e) => Err(e)
            case Ok(rest) =>
              Ok(Parsed([Entry(key.value, val.value)] + rest.value, rest.next,
                        Then(key.log, Then(val.log, rest.log))))
  }

  /** The first item of the buffer, and what reading it took. */
  function DecodeFirst(buf: Bytes): Result<Parsed<Value>> {
    DecodeItem(buf, Index(0))
  }

  function Decode(buf: Bytes): Result<Value> {
    match DecodeFirst(buf)
    case Err(e) => Err(e)
    case Ok(item) => if item.next != Index(|buf|) then Err(Trailing) else Ok(item.value)
  }

  // -------- the encoder --------

  const TWO32: int := 0x1_0000_0000

  /** The head's bytes; lengths past 32 bits lose their upper bits. */
  function Head(major: nat, len: nat): Bytes
    requires major < 8
  {
    if len < 24 then [major * 32 + len]
    else if len < 0x100 then [major * 32 + 24, len]
    else if len < 0x10000 then [major * 32 + 25, len / 0x100, len % 0x100]
    else [major * 32 + 26, len / 0x1000000 % 0x100, len / 0x10000 % 0x100, len / 0x100 % 0x100, len % 0x100]
  }

  /** The values of the source's type: numbers, texts, byte strings, arrays, and maps keyed by numbers or texts. */
  predicate Plain(v: Value)
    decreases v
  {
    match v
    case Int(_) => true
    case NaN => false
    case Undefined => false
    case Text(t) => WellFormed(t)
    case Blob(_) => true
    case List(items) => PlainItems(items)
    case Dict(entries) => PlainPairs(entries)
  }

  predicate PlainItems(items: seq<Value>)
    decreases items
  {
    items == [] || (Plain(items[0]) && PlainItems(items[1..]))
  }

  predicate PlainPairs(entries: seq<Entry>)
    decreases entries
  {
    entries == [] || (PlainEntry(entries[0]) && PlainPairs(entries[1..]))
  }

  predicate PlainEntry(e: Entry)
    decreases e
  {
    (e.key.Int? || e.key.Text?) && Plain(e.key) && Plain(e.value)
  }

  function Encode(v: Value): Bytes
    requires Plain(v)
    decreases v
  {
    match v
    case Int(n) => if n >= 0 then Head(0, n) else Head(1, -1 - n)
    case Text(t) => Head(3, |t|) + t
    case Blob(b) => Head(2, |b|) + b
    case List(items) => Head(4, |items|) + EncodeItems(items)
    case Dict(entries) => Head(5, |entries|) + EncodePairs(entries)
  }

  function EncodeItems(items: seq<Value>): Bytes
    requires PlainItems(items)
    decreases items
  {
    if items == [] then [] else Encode(items[0]) + EncodeItems(items[1..])
  }

  function EncodePairs(entries: seq<Entry>): Bytes
    requires PlainPairs(entries)
    decreases entries
  {
    if entries == [] then []
    else EncodeEntry(entries[0]) + EncodePairs(entries[1..])
  }

  function EncodeEntry(e: Entry): Bytes
    requires PlainEntry(e)
    decreases e
  {
    Encode(e.key) + Encode(e.value)
  }
}
