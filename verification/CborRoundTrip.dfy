/** What decoding an encoding gives back, for every value. */
module CborRoundTrip {
  import opened Common
  import opened Utf8
  import opened Cbor

  /** Byte strings, texts, arrays and maps whose sizes fit the 32-bit head. */
  predicate Sized(v: Value)
    decreases v
  {
    match v
    case Text(t) => |t| < TWO32
    case Blob(b) => |b| < TWO32
    case List(items) => |items| < TWO32 && SizedItems(items)
    case Dict(entries) => |entries| < TWO32 && SizedPairs(entries)
    case _ => true
  }

  predicate SizedItems(items: seq<Value>)
    decreases items
  {
    items == [] || (Sized(items[0]) && SizedItems(items[1..]))
  }

  predicate SizedPairs(entries: seq<Entry>)
    decreases entries
  {
    entries == [] || (SizedEntry(entries[0]) && SizedPairs(entries[1..]))
  }

  predicate SizedEntry(e: Entry)
    decreases e
  {
    Sized(e.key) && Sized(e.value)
  }

  /** What comes back: integers cut to 32 bits, texts without their byte order mark, repeated keys merged. */
  function Normal(v: Value): Value
    decreases v
  {
    match v
    case Int(n) => Int(if n >= 0 then n % TWO32 else -1 - (-1 - n) % TWO32)
    case Text(t) => Text(if StartsWithBom(t) then t[3..] else t)
    case List(items) => List(NormalItems(items))
    case Dict(entries) => Dict(FromPairs(NormalPairs(entries)))
    case _ => v
  }

  function NormalItems(items: seq<Value>): (r: seq<Value>)
    ensures |r| == |items|
    decreases items
  {
    if items == [] then [] else [Normal(items[0])] + NormalItems(items[1..])
  }

  function NormalPairs(entries: seq<Entry>): (r: seq<Entry>)
    ensures |r| == |entries|
    decreases entries
  {
    if entries == [] then [] else [NormalEntry(entries[0])] + NormalPairs(entries[1..])
  }

  function NormalEntry(e: Entry): Entry
    decreases e
  {
    Entry(Normal(e.key), Normal(e.value))
  }

  /** 32-bit magnitudes, distinct keys, and no byte order marks unless they are allowed. */
  ghost predicate Carried(v: Value, marks: bool)
    decreases v
  {
    match v
    case Int(n) => -TWO32 <= n < TWO32
    case Text(t) => marks || !StartsWithBom(t)
    case List(items) => CarriedItems(items, marks)
    case Dict(entries) => CarriedPairs(entries, marks) && DistinctKeys(entries)
    case _ => true
  }

  ghost predicate CarriedItems(items: seq<Value>, marks: bool)
    decreases items
  {
    items == [] || (Carried(items[0], marks) && CarriedItems(items[1..], marks))
  }

  ghost predicate CarriedPairs(entries: seq<Entry>, marks: bool)
    decreases entries
  {
    entries == [] || (CarriedEntry(entries[0], marks) && CarriedPairs(entries[1..], marks))
  }

  ghost predicate CarriedEntry(e: Entry, marks: bool)
    decreases e
  {
    Carried(e.key, marks) && Carried(e.value, marks)
  }

  /** The values the codec gives back. */
  ghost predicate Exact(v: Value) {
    Carried(v, false)
  }

  // -------- maps --------

  function KeySet(entries: seq<Entry>): set<Value>
    decreases |entries|
  {
    if entries == [] then {} else {entries[0].key} + KeySet(entries[1..])
  }

  predicate DistinctKeys(entries: seq<Entry>)
    decreases |entries|
  {
    entries == [] || (entries[0].key !in KeySet(entries[1..]) && DistinctKeys(entries[1..]))
  }

  /** A put adds its key, keeps keys distinct, and lengthens the map only for a new key. */
  lemma {:induction false} PutKeeps(entries: seq<Entry>, e: Entry)
    requires DistinctKeys(entries)
    ensures DistinctKeys(Put(entries, e)) && KeySet(Put(entries, e)) == KeySet(entries) + {e.key}
    ensures if e.key in KeySet(entries) then |Put(entries, e)| == |entries| else Put(entries, e) == entries + [e]
    decreases |entries|
  {
    if entries != [] {
      var rest := Put(entries[1..], e);
      if entries[0].key == e.key {
        assert Put(entries, e)[1..] == entries[1..];
      } else {
        PutKeeps(entries[1..], e);
        assert Put(entries, e)[1..] == rest;
      }
    }
  }

  lemma {:induction false} KeysOfAppend(entries: seq<Entry>, e: Entry)
    ensures KeySet(entries + [e]) == KeySet(entries) + {e.key}
    ensures DistinctKeys(entries + [e]) <==> DistinctKeys(entries) && e.key !in KeySet(entries)
    decreases |entries|
  {
    if entries != [] {
      KeysOfAppend(entries[1..], e);
      assert (entries + [e])[1..] == entries[1..] + [e];
    }
  }

  /** A map holds each key once, and all pairs survive exactly when their keys differ. */
  lemma {:induction false} FromPairsKeeps(pairs: seq<Entry>)
    ensures DistinctKeys(FromPairs(pairs)) && KeySet(FromPairs(pairs)) == KeySet(pairs)
    ensures |FromPairs(pairs)| <= |pairs|
    ensures DistinctKeys(pairs) ==> FromPairs(pairs) == pairs
    ensures !DistinctKeys(pairs) ==> |FromPairs(pairs)| < |pairs|
    decreases |pairs|
  {
    if pairs != [] {
      var front, last := pairs[..|pairs| - 1], pairs[|pairs| - 1];
      assert pairs == front + [last];
      FromPairsKeeps(front);
      KeysOfAppend(front, last);
      PutKeeps(FromPairs(front), last);
    }
  }

  // -------- which values come back unchanged --------

  /** A value comes back unchanged exactly when it is one of the values the codec carries. */
  lemma {:induction false} NormalKeepsExactly(v: Value)
    ensures Normal(v) == v <==> Exact(v)
    decreases v
  {
    match v {
      case Int(n) =>
      case Text(t) =>
      case List(items) => NormalItemsKeepExactly(items);
      case Dict(entries) =>
        NormalPairsKeepExactly(entries);
        FromPairsKeeps(NormalPairs(entries));
      case _ =>
    }
  }

  lemma {:induction false} NormalItemsKeepExactly(items: seq<Value>)
    ensures NormalItems(items) == items <==> CarriedItems(items, false)
    decreases items
  {
    if items != [] {
      NormalKeepsExactly(items[0]);
      NormalItemsKeepExactly(items[1..]);
      assert items == [items[0]] + items[1..];
      assert NormalItems(items)[0] == Normal(items[0]) && NormalItems(items)[1..] == NormalItems(items[1..]);
    }
  }

  lemma {:induction false} NormalPairsKeepExactly(entries: seq<Entry>)
    ensures NormalPairs(entries) == entries <==> CarriedPairs(entries, false)
    decreases entries
  {
    if entries != [] {
      NormalEntryKeepsExactly(entries[0]);
      NormalPairsKeepExactly(entries[1..]);
      assert entries == [entries[0]] + entries[1..];
      assert NormalPairs(entries)[0] == NormalEntry(entries[0]) &&
             NormalPairs(entries)[1..] == NormalPairs(entries[1..]);
    }
  }

  lemma {:induction false} NormalEntryKeepsExactly(e: Entry)
    ensures NormalEntry(e) == e <==> CarriedEntry(e, false)
    decreases e
  {
    NormalKeepsExactly(e.key);
    NormalKeepsExactly(e.value);
  }

  // -------- decoding an encoding --------

  /** `part` is what the buffer holds from `at` on. */
  predicate Holds(buf: Bytes, at: nat, part: Bytes) {
    at + |part| <= |buf| && buf[at..at + |part|] == part
  }

  lemma HoldsSplit(buf: Bytes, at: nat, first: Bytes, second: Bytes)
    requires Holds(buf, at, first + second)
    ensures Holds(buf, at, first) && Holds(buf, at + |first|, second)
  {
    var both := first + second;
    assert first == both[..|first|] && second == both[|first|..];
    assert buf[at..at + |both|][..|first|] == buf[at..at + |first|];
    assert buf[at..at + |both|][|first|..] == buf[at + |first|..at + |first| + |second|];
  }

  lemma HoldsByte(buf: Bytes, at: nat, part: Bytes, i: nat)
    requires Holds(buf, at, part) && i < |part|
    ensures buf[at + i] == part[i]
  {
    assert buf[at + i] == buf[at..at + |part|][i];
  }

  lemma FourBytes(n: nat)
    ensures n / 0x1000000 % 0x100 * 0x1000000 + n / 0x10000 % 0x100 * 0x10000 + n / 0x100 % 0x100 * 0x100 +
            n % 0x100 == n % TWO32
  {
    var a := n / 0x100;
    var b := a / 0x100;
    var c := b / 0x100;
    assert n / 0x10000 == b && n / 0x1000000 == c && n / TWO32 == c / 0x100;
  }

  /** A head gives back its major type and its length, cut to 32 bits. */
  lemma HeadReads(buf: Bytes, at: nat, major: nat, len: nat)
    requires major < 8 && Holds(buf, at, Head(major, len))
    ensures at < |buf| && buf[at] / 32 == major
    ensures var r := ReadLength(buf, at + 1, buf[at] % 32);
            r.Ok? && r.value.value == Count(len % TWO32) && r.value.next == Index(at + |Head(major, len)|)
  {
    var head := Head(major, len);
    HoldsByte(buf, at, head, 0);
    if len < 24 {
    } else if len < 0x100 {
      HoldsByte(buf, at, head, 1);
    } else if len < 0x10000 {
      HoldsByte(buf, at, head, 1);
      HoldsByte(buf, at, head, 2);
    } else {
      HoldsByte(buf, at, head, 1);
      HoldsByte(buf, at, head, 2);
      HoldsByte(buf, at, head, 3);
      HoldsByte(buf, at, head, 4);
      FourBytes(len);
    }
  }

  /** Reading `r` gave `v` and stopped at `end`. */
  predicate Gives<T(==)>(r: Result<Parsed<T>>, v: T, end: nat) {
    r.Ok? && r.value.value == v && r.value.next == Index(end)
  }

  lemma ContentDecides(buf: Bytes, at: nat, major: nat, len: nat, v: Value, end: nat)
    requires major < 8 && Holds(buf, at, Head(major, len))
    requires Gives(DecodeContent(buf, major, Count(len % TWO32), Index(at + |Head(major, len)|)), v, end)
    ensures Gives(DecodeItem(buf, Index(at)), v, end)
  {
    HeadReads(buf, at, major, len);
  }

  /** The same for a length that the head carries whole. */
  lemma FittingContentDecides(buf: Bytes, at: nat, major: nat, len: nat, start: nat, v: Value, end: nat)
    requires major < 8 && len < TWO32 && Holds(buf, at, Head(major, len)) && start == at + |Head(major, len)|
    requires Gives(DecodeContent(buf, major, Count(len), Index(start)), v, end)
    ensures Gives(DecodeItem(buf, Index(at)), v, end)
  {
    assert len % TWO32 == len;
    ContentDecides(buf, at, major, len, v, end);
  }

  lemma DecodesInt(buf: Bytes, at: nat, n: int)
    requires Holds(buf, at, Encode(Int(n)))
    ensures Gives(DecodeItem(buf, Index(at)), Normal(Int(n)), at + |Encode(Int(n))|)
  {
    var major, len := if n >= 0 then 0 else 1, if n >= 0 then n else -1 - n;
    ContentDecides(buf, at, major, len, Normal(Int(n)), at + |Encode(Int(n))|);
  }

  lemma TextContent(buf: Bytes, start: nat, t: Bytes)
    requires |t| < TWO32 && Holds(buf, start, t)
    ensures Gives(DecodeContent(buf, 3, Count(|t|), Index(start)), Text(DecodeText(t)), start + |t|)
  {
    assert Slice(buf, Count(|t|), start) == Some(Parsed(t, Index(start + |t|), Took(start, start + |t|)));
  }

  lemma NormalText(t: Bytes)
    requires WellFormed(t)
    ensures Normal(Text(t)) == Text(DecodeText(t))
  {
    DecodeOfWellFormed(t);
  }

  lemma TextItem(buf: Bytes, at: nat, t: Bytes)
    requires |t| < TWO32 && Holds(buf, at, Head(3, |t|)) && Holds(buf, at + |Head(3, |t|)|, t)
    ensures Gives(DecodeItem(buf, Index(at)), Text(DecodeText(t)), at + |Head(3, |t|)| + |t|)
  {
    var start := at + |Head(3, |t|)|;
    TextContent(buf, start, t);
    FittingContentDecides(buf, at, 3, |t|, start, Text(DecodeText(t)), start + |t|);
  }

  lemma DecodesText(buf: Bytes, at: nat, t: Bytes)
    requires WellFormed(t) && |t| < TWO32 && Holds(buf, at, Encode(Text(t)))
    ensures Gives(DecodeItem(buf, Index(at)), Normal(Text(t)), at + |Encode(Text(t))|)
  {
    NormalText(t);
    HoldsSplit(buf, at, Head(3, |t|), t);
    TextItem(buf, at, t);
  }

  lemma DecodesBlob(buf: Bytes, at: nat, b: Bytes)
    requires |b| < TWO32 && Holds(buf, at, Encode(Blob(b)))
    ensures Gives(DecodeItem(buf, Index(at)), Blob(b), at + |Encode(Blob(b))|)
  {
    HoldsSplit(buf, at, Head(2, |b|), b);
    var start := at + |Head(2, |b|)|;
    FittingContentDecides(buf, at, 2, |b|, start, Blob(b), start + |b|);
  }

  lemma {:induction false} DecodesEncoding(buf: Bytes, at: nat, v: Value)
    requires Plain(v) && Sized(v) && Holds(buf, at, Encode(v))
    ensures Gives(DecodeItem(buf, Index(at)), Normal(v), at + |Encode(v)|)
    decreases v
  {
    match v {
      case Int(n) => DecodesInt(buf, at, n);
      case Text(t) => DecodesText(buf, at, t);
      case Blob(b) => DecodesBlob(buf, at, b);
      case List(items) => DecodesList(buf, at, items);
      case Dict(entries) => DecodesDict(buf, at, entries);
    }
  }

  lemma {:induction false} DecodesList(buf: Bytes, at: nat, items: seq<Value>)
    requires PlainItems(items) && SizedItems(items) && |items| < TWO32 && Holds(buf, at, Encode(List(items)))
    ensures Gives(DecodeItem(buf, Index(at)), Normal(List(items)), at + |Encode(List(items))|)
    decreases items, 1
  {
    var head := Head(4, |items|);
    HoldsSplit(buf, at, head, EncodeItems(items));
    DecodesItems(buf, at + |head|, items);
    ListContent(buf, at, items);
  }

  lemma {:induction false} DecodesDict(buf: Bytes, at: nat, entries: seq<Entry>)
    requires PlainPairs(entries) && SizedPairs(entries) && |entries| < TWO32 && Holds(buf, at, Encode(Dict(entries)))
    ensures Gives(DecodeItem(buf, Index(at)), Normal(Dict(entries)), at + |Encode(Dict(entries))|)
    decreases entries, 1
  {
    var head := Head(5, |entries|);
    HoldsSplit(buf, at, head, EncodePairs(entries));
    DecodesPairs(buf, at + |head|, entries);
    DictContent(buf, at, entries);
  }

  lemma ListContent(buf: Bytes, at: nat, items: seq<Value>)
    requires PlainItems(items) && |items| < TWO32 && Holds(buf, at, Head(4, |items|))
    requires var start := at + |Head(4, |items|)|;
             Gives(DecodeItems(buf, Index(start), |items|), NormalItems(items), start + |EncodeItems(items)|)
    ensures Gives(DecodeItem(buf, Index(at)), Normal(List(items)), at + |Encode(List(items))|)
  {
    var start := at + |Head(4, |items|)|;
    FittingContentDecides(buf, at, 4, |items|, start, Normal(List(items)), start + |EncodeItems(items)|);
  }

  lemma DictContent(buf: Bytes, at: nat, entries: seq<Entry>)
    requires PlainPairs(entries) && |entries| < TWO32 && Holds(buf, at, Head(5, |entries|))
    requires var start := at + |Head(5, |entries|)|;
             Gives(DecodePairs(buf, Index(start), |entries|), NormalPairs(entries), start + |EncodePairs(entries)|)
    ensures Gives(DecodeItem(buf, Index(at)), Normal(Dict(entries)), at + |Encode(Dict(entries))|)
  {
    var start := at + |Head(5, |entries|)|;
    FittingContentDecides(buf, at, 5, |entries|, start, Normal(Dict(entries)), start + |EncodePairs(entries)|);
  }

  lemma DecodeOfWellFormed(t: Bytes)
    requires WellFormed(t)
    ensures DecodeText(t) == if StartsWithBom(t) then t[3..] else t
  {
    if StartsWithBom(t) {
      assert FrontOf(t) == Front(true, 3);
      RepairFixesExactlyTheBroken(t[3..]);
    } else {
      RepairFixesExactlyTheBroken(t);
    }
  }

  lemma {:induction false} DecodesItems(buf: Bytes, at: nat, items: seq<Value>)
    requires PlainItems(items) && SizedItems(items) && Holds(buf, at, EncodeItems(items))
    ensures Gives(DecodeItems(buf, Index(at), |items|), NormalItems(items), at + |EncodeItems(items)|)
    decreases items, 0
  {
    if items != [] {
      var first, rest := items[0], items[1..];
      HoldsSplit(buf, at, Encode(first), EncodeItems(rest));
      DecodesEncoding(buf, at, first);
      var end := at + |Encode(first)|;
      DecodesItems(buf, end, rest);
      ItemsStep(buf, at, |rest|, Normal(first), end, NormalItems(rest), end + |EncodeItems(rest)|);
    }
  }

  /** One turn of the array loop. */
  lemma ItemsStep(buf: Bytes, at: nat, count: nat, item: Value, end: nat, rest: seq<Value>, last: nat)
    requires Gives(DecodeItem(buf, Index(at)), item, end) && Gives(DecodeItems(buf, Index(end), count), rest, last)
    ensures Gives(DecodeItems(buf, Index(at), count + 1), [item] + rest, last)
  {
  }

  lemma {:induction false} DecodesPairs(buf: Bytes, at: nat, entries: seq<Entry>)
    requires PlainPairs(entries) && SizedPairs(entries) && Holds(buf, at, EncodePairs(entries))
    ensures Gives(DecodePairs(buf, Index(at), |entries|), NormalPairs(entries), at + |EncodePairs(entries)|)
    decreases entries, 0
  {
    if entries == [] {
      NoPairs(buf, at, entries);
    } else {
      var first, rest := entries[0], entries[1..];
      PairsUnfold(entries);
      HoldsSplit(buf, at, EncodeEntry(first), EncodePairs(rest));
      DecodesEntry(buf, at, first);
      var end := at + |EncodeEntry(first)|;
      DecodesPairs(buf, end, rest);
      PairsStep(buf, at, |rest|, Normal(first.key), Normal(first.value), at + |Encode(first.key)|, end,
                NormalPairs(rest), end + |EncodePairs(rest)|);
    }
  }

  lemma NoPairs(buf: Bytes, at: nat, entries: seq<Entry>)
    requires entries == []
    ensures PlainPairs(entries)
    ensures Gives(DecodePairs(buf, Index(at), |entries|), NormalPairs(entries), at + |EncodePairs(entries)|)
  {
  }

  lemma PairsUnfold(entries: seq<Entry>)
    requires entries != [] && PlainPairs(entries) && SizedPairs(entries)
    ensures PlainEntry(entries[0]) && PlainPairs(entries[1..]) && SizedEntry(entries[0]) && SizedPairs(entries[1..])
    ensures NormalPairs(entries) == [Entry(Normal(entries[0].key), Normal(entries[0].value))] +
            NormalPairs(entries[1..])
    ensures EncodePairs(entries) == EncodeEntry(entries[0]) + EncodePairs(entries[1..])
  {
  }

  /** One turn of the map loop. */
  lemma PairsStep(buf: Bytes, at: nat, count: nat, key: Value, value: Value, mid: nat, end: nat, rest: seq<Entry>,
                  last: nat)
    requires IsKey(key) && Gives(DecodeItem(buf, Index(at)), key, mid) && Gives(DecodeItem(buf, Index(mid)), value, end)
    requires Gives(DecodePairs(buf, Index(end), count), rest, last)
    ensures Gives(DecodePairs(buf, Index(at), count + 1), [Entry(key, value)] + rest, last)
  {
  }

  lemma {:induction false} DecodesEntry(buf: Bytes, at: nat, e: Entry)
    requires PlainEntry(e) && SizedEntry(e) && Holds(buf, at, EncodeEntry(e))
    ensures IsKey(Normal(e.key))
    ensures Gives(DecodeItem(buf, Index(at)), Normal(e.key), at + |Encode(e.key)|)
    ensures Gives(DecodeItem(buf, Index(at + |Encode(e.key)|)), Normal(e.value), at + |EncodeEntry(e)|)
    decreases e
  {
    var mid := at + |Encode(e.key)|;
    assert Holds(buf, at, Encode(e.key)) && Holds(buf, mid, Encode(e.value)) by {
      HoldsSplit(buf, at, Encode(e.key), Encode(e.value));
    }
    assert Gives(DecodeItem(buf, Index(at)), Normal(e.key), mid) by {
      DecodesEncoding(buf, at, e.key);
    }
    assert Gives(DecodeItem(buf, Index(mid)), Normal(e.value), mid + |Encode(e.value)|) by {
      DecodesEncoding(buf, mid, e.value);
    }
  }

  /**
   * Encodings are prefix-free: whatever follows an encoding, reading the first
   * item gives its value back in normal form and consumes exactly the encoding.
   */
  lemma FirstItemOfEncoding(v: Value, suffix: Bytes)
    requires Plain(v) && Sized(v)
    ensures Gives(DecodeFirst(Encode(v) + suffix), Normal(v), |Encode(v)|)
  {
    DecodesEncoding(Encode(v) + suffix, 0, v);
  }

  /** No encoding is the beginning of a different one. */
  lemma EncodingsArePrefixFree(v: Value, w: Value)
    requires Plain(v) && Sized(v) && Plain(w) && Sized(w) && Encode(v) <= Encode(w)
    ensures Encode(v) == Encode(w) && Normal(v) == Normal(w)
  {
    FirstItemOfEncoding(v, Encode(w)[|Encode(v)|..]);
    FirstItemOfEncoding(w, []);
    assert Encode(w) + [] == Encode(w) == Encode(v) + Encode(w)[|Encode(v)|..];
  }

  /**
   * The round trip: for every value, nested to any depth, decoding its
   * encoding gives the value back exactly when its integers lie in
   * [-2^32, 2^32 - 1], its texts have no byte order mark, and its maps' keys differ.
   */
  lemma RoundTripExactly(v: Value)
    requires Plain(v) && Sized(v)
    ensures Decode(Encode(v)) == Ok(Normal(v))
    ensures Decode(Encode(v)) == Ok(v) <==> Exact(v)
  {
    FirstItemOfEncoding(v, []);
    assert Encode(v) + [] == Encode(v);
    NormalKeepsExactly(v);
  }

  /** The bound is tight: 2^32 encodes like 0. */
  lemma TwoTo32DoesNotSurvive()
    ensures Decode(Encode(Int(TWO32))) == Ok(Int(0))
    ensures Decode(Encode(Int(TWO32 - 1))) == Ok(Int(TWO32 - 1)) && Decode(Encode(Int(-TWO32))) == Ok(Int(-TWO32))
  {
    RoundTripExactly(Int(TWO32));
    RoundTripExactly(Int(TWO32 - 1));
    RoundTripExactly(Int(-TWO32));
  }
}
