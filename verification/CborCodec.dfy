/** The codec's loops, as the source runs them: reading items off a cursor, and appending to an output. */
module CborCodec {
  import opened Common
  import opened Utf8
  import opened Cbor

  /** What a caller sees of a reading. */
  function Seen<T>(r: Result<Parsed<T>>): Result<(T, Pos)> {
    match r
    case Err(e) => Err(e)
    case Ok(p) => Ok((p.value, p.next))
  }

  /** Reading everything has the outcome of reading `rest` after `done`. */
  predicate Continues<T(==)>(whole: Result<Parsed<seq<T>>>, done: seq<T>, rest: Result<Parsed<seq<T>>>) {
    match rest
    case Err(e) => whole == Err(e)
    case Ok(p) => whole.Ok? && whole.value.value == done + p.value && whole.value.next == p.next
  }

  method DecodeItem(buf: Bytes, at: Pos) returns (r: Result<(Value, Pos)>)
    ensures r == Seen(Cbor.DecodeItem(buf, at))
    decreases Left(buf, at), 0
  {
    if at.Nowhere? {
      return Ok((Int(0), Nowhere));
    }
    if at.i >= |buf| {
      return Err(Truncated);
    }
    var major, info := buf[at.i] / 32, buf[at.i] % 32;
    var head := ReadLength(buf, at.i + 1, info);
    if head.Err? {
      return Err(head.error);
    }
    var len, offset := head.value.value, head.value.next;
    match major {
      case 0 => r := Ok((Num(len), offset));
      case 1 => r := Ok((Negative(len), offset));
      case 2 =>
        if len.Count? && offset.i + len.n > |buf| {
          return Err(TruncatedBytes);
        }
        r := Ok(if len.Count? then (Blob(buf[offset.i..offset.i + len.n]), Index(offset.i + len.n))
          else (Blob([]), Nowhere));
      case 3 =>
        if len.Count? && offset.i + len.n > |buf| {
          return Err(TruncatedText);
        }
        r := Ok(if len.Count? then (Text(DecodeText(buf[offset.i..offset.i + len.n])), Index(offset.i + len.n))
                else (Text(DecodeText([])), Nowhere));
      case 4 => r := DecodeArray(buf, offset, Times(len));
      case 5 => r := DecodeMap(buf, offset, Times(len));
      case _ => r := Err(BadMajor);
    }
  }

  function AsList(r: Result<Parsed<seq<Value>>>): Result<(Value, Pos)> {
    if r.Err? then Err(r.error) else Ok((List(r.value.value), r.value.next))
  }

  function AsDict(r: Result<Parsed<seq<Entry>>>): Result<(Value, Pos)> {
    if r.Err? then Err(r.error) else Ok((Dict(FromPairs(r.value.value)), r.value.next))
  }

  method DecodeArray(buf: Bytes, offset: Pos, len: nat) returns (r: Result<(Value, Pos)>)
    ensures r == AsList(DecodeItems(buf, offset, len))
    decreases Left(buf, offset), 1
  {
    var arr, cur := [], offset;
    ghost var whole := DecodeItems(buf, offset, len);
    for i := 0 to len
      invariant NotBefore(offset, cur)
      invariant Continues(whole, arr, DecodeItems(buf, cur, len - i))
    {
      ArrayTurn(buf, cur, len - i, whole, arr);
      var item := DecodeItem(buf, cur);
      if item.Err? {
        return Err(item.error);
      }
      arr, cur := arr + [item.value.0], item.value.1;
    }
    assert arr + [] == arr;
    r := Ok((List(arr), cur));
  }

  /** One turn of the array loop either ends the reading or takes one item off what is left. */
  lemma ArrayTurn(buf: Bytes, cur: Pos, left: nat, whole: Result<Parsed<seq<Value>>>, arr: seq<Value>)
    requires left > 0 && Continues(whole, arr, DecodeItems(buf, cur, left))
    ensures match Cbor.DecodeItem(buf, cur)
            case Err(e) => whole == Err(e)
            case Ok(p) => Continues(whole, arr + [p.value], DecodeItems(buf, p.next, left - 1))
  {
    var item := Cbor.DecodeItem(buf, cur);
    if item.Ok? && DecodeItems(buf, item.value.next, left - 1).Ok? {
      var rest := DecodeItems(buf, item.value.next, left - 1).value.value;
      assert arr + ([item.value.value] + rest) == arr + [item.value.value] + rest;
    }
  }

  /** A key and its value. */
  function PairAt(buf: Bytes, at: Pos): (r: Result<(Entry, Pos)>)
    ensures r.Ok? ==> Beyond(at, r.value.1)
  {
    match Cbor.DecodeItem(buf, at)
    case Err(e) => Err(e)
    case Ok(key) =>
      if !IsKey(key.value) then Err(BadKey)
      else
        match Cbor.DecodeItem(buf, key.next)
        case Err(e) => Err(e)
        case Ok(val) => Ok((Entry(key.value, val.value), val.next))
  }

  method DecodePair(buf: Bytes, at: Pos) returns (r: Result<(Entry, Pos)>)
    ensures r == PairAt(buf, at)
    decreases Left(buf, at), 1
  {
    var key := DecodeItem(buf, at);
    if key.Err? {
      return Err(key.error);
    }
    if !IsKey(key.value.0) {
      return Err(BadKey);
    }
    var val := DecodeItem(buf, key.value.1);
    if val.Err? {
      return Err(val.error);
    }
    r := Ok((Entry(key.value.0, val.value.0), val.value.1));
  }

  method DecodeMap(buf: Bytes, offset: Pos, len: nat) returns (r: Result<(Value, Pos)>)
    ensures r == AsDict(DecodePairs(buf, offset, len))
    decreases Left(buf, offset), 2
  {
    var entries, cur := [], offset;
    ghost var pairs := [];
    ghost var whole := DecodePairs(buf, offset, len);
    for i := 0 to len
      invariant NotBefore(offset, cur)
      invariant entries == FromPairs(pairs)
      invariant Continues(whole, pairs, DecodePairs(buf, cur, len - i))
    {
      MapTurn(buf, cur, len - i, whole, pairs);
      var pair := DecodePair(buf, cur);
      if pair.Err? {
        return Err(pair.error);
      }
      var (e, next) := pair.value;
      assert (pairs + [e])[..|pairs|] == pairs;
      entries, cur := Put(entries, e), next;
      pairs := pairs + [e];
    }
    assert pairs + [] == pairs;
    r := Ok((Dict(entries), cur));
  }

  /** One turn of the map loop either ends the reading or takes one entry off what is left. */
  lemma MapTurn(buf: Bytes, cur: Pos, left: nat, whole: Result<Parsed<seq<Entry>>>, pairs: seq<Entry>)
    requires left > 0 && Continues(whole, pairs, DecodePairs(buf, cur, left))
    ensures match PairAt(buf, cur)
            case Err(e) => whole == Err(e)
            case Ok(p) => Continues(whole, pairs + [p.0], DecodePairs(buf, p.1, left - 1))
  {
    var pair := PairAt(buf, cur);
    if pair.Ok? && DecodePairs(buf, pair.value.1, left - 1).Ok? {
      var rest := DecodePairs(buf, pair.value.1, left - 1).value.value;
      assert pairs + ([pair.value.0] + rest) == pairs + [pair.value.0] + rest;
    }
  }

  method DecodeCbor(buf: Bytes) returns (r: Result<Value>)
    ensures r == Decode(buf)
  {
    var item := DecodeItem(buf, Index(0));
    if item.Err? {
      return Err(item.error);
    }
    if item.value.1 != Index(|buf|) {
      return Err(Trailing);
    }
    r := Ok(item.value.0);
  }

  // -------- the encoder --------

  /** What the source's types promise of a value: texts are texts, and keys are numbers or texts. */
  predicate Typed(v: Value)
    decreases v
  {
    match v
    case Text(t) => WellFormed(t)
    case List(items) => TypedItems(items)
    case Dict(entries) => TypedPairs(entries)
    case _ => true
  }

  predicate TypedItems(items: seq<Value>)
    decreases items
  {
    items == [] || (Typed(items[0]) && TypedItems(items[1..]))
  }

  predicate TypedPairs(entries: seq<Entry>)
    decreases entries
  {
    entries == [] || (TypedEntry(entries[0]) && TypedPairs(entries[1..]))
  }

  predicate TypedEntry(e: Entry)
    decreases e
  {
    IsKey(e.key) && Typed(e.key) && Typed(e.value)
  }

  lemma ItemsUnfold(before: Bytes, items: seq<Value>, i: nat)
    requires i < |items| && TypedItems(items[i..])
    ensures Typed(items[i]) && TypedItems(items[i + 1..])
    ensures PlainItems(items[i..]) <==> Plain(items[i]) && PlainItems(items[i + 1..])
    ensures PlainItems(items[i..]) ==>
              before + EncodeItems(items[i..]) == before + Encode(items[i]) + EncodeItems(items[i + 1..])
  {
    assert items[i..][1..] == items[i + 1..];
  }

  lemma PairsUnfold(before: Bytes, entries: seq<Entry>, i: nat)
    requires i < |entries| && TypedPairs(entries[i..])
    ensures TypedEntry(entries[i]) && TypedPairs(entries[i + 1..])
    ensures PlainPairs(entries[i..]) <==> PlainEntry(entries[i]) && PlainPairs(entries[i + 1..])
    ensures PlainPairs(entries[i..]) ==>
              before + EncodePairs(entries[i..]) == before + EncodeEntry(entries[i]) + EncodePairs(entries[i + 1..])
  {
    assert entries[i..][1..] == entries[i + 1..];
  }

  lemma ListUnfold(before: Bytes, items: seq<Value>)
    ensures PlainItems(items) ==> before + Head(4, |items|) + EncodeItems(items) == before + Encode(List(items))
  {
  }

  lemma DictUnfold(before: Bytes, entries: seq<Entry>)
    ensures PlainPairs(entries) ==> before + Head(5, |entries|) + EncodePairs(entries) == before + Encode(Dict(entries))
  {
  }

  class Output {
    var bytes: Bytes

    constructor ()
      ensures bytes == []
    {
      bytes := [];
    }

    method WriteHead(major: nat, len: nat)
      requires major < 8
      modifies this
      ensures bytes == old(bytes) + Head(major, len)
    {
      var m := major * 32;
      if len < 24 {
        bytes := bytes + [m + len];
      } else if len < 0x100 {
        bytes := bytes + [m + 24, len];
      } else if len < 0x10000 {
        bytes := bytes + [m + 25, len / 0x100, len % 0x100];
      } else {
        bytes := bytes + [m + 26, len / 0x1000000 % 0x100, len / 0x10000 % 0x100, len / 0x100 % 0x100, len % 0x100];
      }
    }

    method Append(content: Bytes)
      modifies this
      ensures bytes == old(bytes) + content
    {
      for i := 0 to |content|
        invariant bytes == old(bytes) + content[..i]
      {
        bytes := bytes + [content[i]];
      }
    }

    method EncodeNumber(n: int)
      modifies this
      ensures bytes == old(bytes) + Encode(Int(n))
    {
      if n >= 0 {
        WriteHead(0, n);
      } else {
        WriteHead(1, -1 - n);
      }
    }

    method EncodeBytes(major: nat, content: Bytes)
      requires major < 8
      modifies this
      ensures bytes == old(bytes) + (Head(major, |content|) + content)
    {
      WriteHead(major, |content|);
      Append(content);
    }

    /** Appends the encoding, or gives up exactly on a value with something other than the codec's types in it. */
    method EncodeItem(value: Value) returns (ok: bool)
      requires Typed(value)
      modifies this
      ensures ok <==> Plain(value)
      ensures ok ==> bytes == old(bytes) + Encode(value)
      decreases value
    {
      match value {
        case Int(n) =>
          EncodeNumber(n);
          ok := true;
        case NaN => ok := false;
        case Undefined => ok := false;
        case Text(t) =>
          EncodeBytes(3, t);
          ok := true;
        case Blob(b) =>
          EncodeBytes(2, b);
          ok := true;
        case List(items) => ok := EncodeArray(items);
        case Dict(entries) => ok := EncodeMap(entries);
      }
    }

    method EncodeArray(items: seq<Value>) returns (ok: bool)
      requires TypedItems(items)
      modifies this
      ensures ok <==> Plain(List(items))
      ensures ok ==> bytes == old(bytes) + Encode(List(items))
      decreases items
    {
      ListUnfold(bytes, items);
      WriteHead(4, |items|);
      ghost var goal := if PlainItems(items) then bytes + EncodeItems(items) else [];
      for i := 0 to |items|
        invariant TypedItems(items[i..])
        invariant PlainItems(items) <==> PlainItems(items[i..])
        invariant PlainItems(items) ==> bytes + EncodeItems(items[i..]) == goal
      {
        ItemsUnfold(bytes, items, i);
        var good := EncodeItem(items[i]);
        if !good {
          return false;
        }
      }
      ok := true;
    }

    method EncodeMap(entries: seq<Entry>) returns (ok: bool)
      requires TypedPairs(entries)
      modifies this
      ensures ok <==> Plain(Dict(entries))
      ensures ok ==> bytes == old(bytes) + Encode(Dict(entries))
      decreases entries
    {
      DictUnfold(bytes, entries);
      WriteHead(5, |entries|);
      ghost var goal := if PlainPairs(entries) then bytes + EncodePairs(entries) else [];
      for i := 0 to |entries|
        invariant TypedPairs(entries[i..])
        invariant PlainPairs(entries) <==> PlainPairs(entries[i..])
        invariant PlainPairs(entries) ==> bytes + EncodePairs(entries[i..]) == goal
      {
        PairsUnfold(bytes, entries, i);
        var good := EncodeKeyAndValue(entries[i]);
        if !good {
          return false;
        }
      }
      ok := true;
    }

    method EncodeKeyAndValue(e: Entry) returns (ok: bool)
      requires TypedEntry(e)
      modifies this
      ensures ok <==> PlainEntry(e)
      ensures ok ==> bytes == old(bytes) + EncodeEntry(e)
      decreases e
    {
      ok := EncodeItem(e.key);
      if ok {
        ok := EncodeItem(e.value);
      }
    }
  }

  method EncodeCbor(value: Value) returns (r: Result<Bytes>)
    requires Typed(value)
    ensures r == if Plain(value) then Ok(Encode(value)) else Err(Unencodable)
  {
    var out := new Output();
    var ok := out.EncodeItem(value);
    assert ok ==> [] + Encode(value) == Encode(value);
    r := if ok then Ok(out.bytes) else Err(Unencodable);
  }
}
