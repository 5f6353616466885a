/** What the decoder does with the bytes of an input it accepts. */
module CborReads {
  import opened Common
  import opened Utf8
  import opened Cbor
  import opened CborRoundTrip

  // -------- every byte once --------

  /** The positions of the bytes that a reading took, in order. */
  function Touched(log: Log): seq<int> {
    match log
    case Nothing => []
    case Stray => [-1]
    case Took(lo, hi) => Range(lo, hi)
    case Headed(_, _) => []
    case Raw(_) => []
    case Filled(_) => []
    case Call(body) => Touched(body)
    case Then(first, second) => Touched(first) + Touched(second)
  }

  function Range(lo: int, hi: int): seq<int>
    decreases hi - lo
  {
    if lo >= hi then [] else [lo] + Range(lo + 1, hi)
  }

  /** How often it called for an item. */
  function Calls(log: Log): nat {
    match log
    case Nothing => 0
    case Stray => 0
    case Took(_, _) => 0
    case Headed(_, _) => 0
    case Raw(_) => 0
    case Filled(_) => 0
    case Call(body) => 1 + Calls(body)
    case Then(first, second) => Calls(first) + Calls(second)
  }

  /** A reading that stops at a real position took the bytes up to it, each once and in order. */
  predicate Contiguous<T>(at: Pos, p: Parsed<T>) {
    p.next.Index? ==>
      && at.Index? && at.i <= p.next.i
      && Touched(p.log) == Range(at.i, p.next.i)
      && Calls(p.log) <= p.next.i - at.i
  }

  lemma {:induction false} RangesJoin(lo: int, mid: int, hi: int)
    requires lo <= mid <= hi
    ensures Range(lo, mid) + Range(mid, hi) == Range(lo, hi)
    decreases mid - lo
  {
    if lo < mid {
      RangesJoin(lo + 1, mid, hi);
      assert [lo] + Range(lo + 1, mid) + Range(mid, hi) == [lo] + (Range(lo + 1, mid) + Range(mid, hi));
    }
  }

  lemma {:induction false} ItemReads(buf: Bytes, at: Pos)
    requires DecodeItem(buf, at).Ok?
    ensures Contiguous(at, DecodeItem(buf, at).value)
    decreases Left(buf, at), 0, 0
  {
    if at.Index? {
      var head := ReadLength(buf, at.i + 1, buf[at.i] % 32).value;
      var major := buf[at.i] / 32;
      var rest := DecodeContent(buf, major, head.value, head.next).value;
      HeadReads(buf, at.i + 1, buf[at.i] % 32);
      ContentReads(buf, major, head.value, head.next);
      ItemJoins(at.i, head, rest, DecodeItem(buf, at).value);
    }
  }

  lemma HeadReads(buf: Bytes, at: nat, info: nat)
    requires ReadLength(buf, at, info).Ok?
    ensures var head := ReadLength(buf, at, info).value;
            head.next.Index? && at <= head.next.i && Touched(head.log) == Range(at, head.next.i) && Calls(head.log) == 0
  {
  }

  /** The first byte, the rest of the head, and the content follow each other. */
  lemma ItemJoins(at: nat, head: Parsed<Length>, rest: Parsed<Value>, all: Parsed<Value>)
    requires head.next.Index? && at + 1 <= head.next.i && Touched(head.log) == Range(at + 1, head.next.i) &&
             Calls(head.log) == 0
    requires Contiguous(head.next, rest)
    requires all.next == rest.next && all.log == Call(Then(Took(at, at + 1), Then(head.log, rest.log)))
    ensures Contiguous(Index(at), all)
  {
    var content := Then(head.log, rest.log);
    var body := Then(Took(at, at + 1), content);
    assert Touched(all.log) == Touched(body) == Range(at, at + 1) + Touched(content);
    assert Calls(all.log) == 1 + Calls(body) && Calls(body) == Calls(content) == Calls(rest.log);
    if rest.next.Index? {
      RangesJoin(at + 1, head.next.i, rest.next.i);
      RangesJoin(at, at + 1, rest.next.i);
    }
  }

  /** Two readings in a row. */
  lemma ReadingsJoin<A, B, C>(at: Pos, first: Parsed<A>, second: Parsed<B>, both: Parsed<C>)
    requires Contiguous(at, first) && Contiguous(first.next, second)
    requires both.next == second.next && both.log == Then(first.log, second.log)
    ensures Contiguous(at, both)
  {
    if both.next.Index? {
      RangesJoin(at.i, first.next.i, both.next.i);
    }
  }

  lemma {:induction false} ContentReads(buf: Bytes, major: nat, len: Length, offset: Pos)
    requires offset.Index? && DecodeContent(buf, major, len, offset).Ok?
    ensures Contiguous(offset, DecodeContent(buf, major, len, offset).value)
    decreases Left(buf, offset), 2, 0
  {
    if major == 4 {
      ItemsRead(buf, offset, Times(len));
    } else if major == 5 {
      PairsRead(buf, offset, Times(len));
    } else if major == 2 || major == 3 {
      SliceReads(buf, len, offset.i);
    }
  }

  lemma SliceReads(buf: Bytes, len: Length, at: nat)
    requires Slice(buf, len, at).Some?
    ensures var s := Slice(buf, len, at).value;
            Contiguous(Index(at), s) && Touched(Then(s.log, Raw(s.value))) == Touched(s.log)
  {
  }

  lemma {:induction false} ItemsRead(buf: Bytes, at: Pos, count: nat)
    requires DecodeItems(buf, at, count).Ok?
    ensures Contiguous(at, DecodeItems(buf, at, count).value)
    decreases Left(buf, at), 1, count
  {
    if count > 0 {
      var item := DecodeItem(buf, at).value;
      ItemReads(buf, at);
      ItemsRead(buf, item.next, count - 1);
      ReadingsJoin(at, item, DecodeItems(buf, item.next, count - 1).value, DecodeItems(buf, at, count).value);
    }
  }

  lemma {:induction false} PairsRead(buf: Bytes, at: Pos, count: nat)
    requires DecodePairs(buf, at, count).Ok?
    ensures Contiguous(at, DecodePairs(buf, at, count).value)
    decreases Left(buf, at), 1, count
  {
    if count > 0 {
      var key := DecodeItem(buf, at).value;
      var val := DecodeItem(buf, key.next).value;
      var rest := DecodePairs(buf, val.next, count - 1).value;
      ItemReads(buf, at);
      ItemReads(buf, key.next);
      PairsRead(buf, val.next, count - 1);
      var tail := Parsed(rest.value, rest.next, Then(val.log, rest.log));
      ReadingsJoin(key.next, val, rest, tail);
      ReadingsJoin(at, key, tail, DecodePairs(buf, at, count).value);
    }
  }

  /**
   * An accepted input was read wholly inside the buffer: its bytes in order,
   * each exactly once, by at most one call per byte.
   */
  lemma AcceptedInputIsReadOnce(buf: Bytes)
    requires Decode(buf).Ok?
    ensures DecodeFirst(buf).Ok?
    ensures Touched(DecodeFirst(buf).value.log) == Range(0, |buf|)
    ensures Calls(DecodeFirst(buf).value.log) <= |buf|
  {
    ItemReads(buf, Index(0));
  }

  // -------- the size of the re-encoding --------

  /** How much longer a text's encoding is than what was read of it, behind the shortest head. */
  function TextGrowth(t: Bytes): int {
    |Head(3, |DecodeText(t)|)| + |DecodeText(t)| - |Head(3, |t|)| - |t|
  }

  /** How much longer repair made the texts of a reading, all in all. */
  function Growth(log: Log): int {
    match log
    case Raw(text) => TextGrowth(text)
    case Call(body) => Growth(body)
    case Then(first, second) => Growth(first) + Growth(second)
    case _ => 0
  }

  /** What merging repeated keys saves when the map is encoded again. */
  function MergeSpare(pairs: seq<Entry>): int {
    if PlainPairs(pairs) && PlainPairs(FromPairs(pairs)) then
      |Head(5, |pairs|)| + |EncodePairs(pairs)| - |Head(5, |FromPairs(pairs)|)| - |EncodePairs(FromPairs(pairs))|
    else 0
  }

  /** The bytes that the encoder saves: those of heads longer than needed, and those of entries that others replaced. */
  function Spare(log: Log): int {
    match log
    case Headed(len, size) => 1 + size - |Head(0, len)|
    case Filled(pairs) => MergeSpare(pairs)
    case Call(body) => Spare(body)
    case Then(first, second) => Spare(first) + Spare(second)
    case _ => 0
  }

  /** Repair lengthened none of the texts. */
  predicate NoTextGrows(log: Log) {
    match log
    case Raw(text) => |DecodeText(text)| <= |text|
    case Call(body) => NoTextGrows(body)
    case Then(first, second) => NoTextGrows(first) && NoTextGrows(second)
    case _ => true
  }

  /** Each head was the shortest for its length, and no map named a key twice. */
  predicate Tight(log: Log) {
    match log
    case Headed(len, size) => 1 + size == |Head(0, len)|
    case Filled(pairs) => DistinctKeys(pairs)
    case Call(body) => Tight(body)
    case Then(first, second) => Tight(first) && Tight(second)
    case _ => true
  }

  /** The encoder's head for a length is the shortest that reads back as that length. */
  lemma HeadIsShortest(buf: Bytes, at: nat, info: nat, major: nat)
    requires major < 8 && info < 32
    requires var r := ReadLength(buf, at, info); r.Ok? && r.value.next.i <= |buf|
    ensures var r := ReadLength(buf, at, info).value;
            && r.value.Count? && r.value.n < TWO32 && at <= r.next.i
            && Growth(r.log) == 0 && Spare(r.log) == 1 + r.next.i - at - |Head(major, r.value.n)| >= 0
  {
  }

  lemma HeadGrows(major: nat, len: nat, more: nat)
    requires major < 8 && len <= more
    ensures |Head(major, len)| <= |Head(major, more)|
  {
  }

  /** A text that grows threefold needs a head at most three times as long. */
  lemma HeadTriples(major: nat, len: nat, more: nat)
    requires major < 8 && more <= 3 * len
    ensures |Head(major, more)| <= 3 * |Head(major, len)|
  {
  }

  /** A map part with what decoding guarantees of it, whose encoding fits. */
  ghost predicate LeanPairs(pairs: seq<Entry>, size: int) {
    PlainPairs(pairs) && CarriedPairs(pairs, true) && |EncodePairs(pairs)| <= size
  }

  lemma {:induction false} PutIsLean(entries: seq<Entry>, e: Entry, size: int)
    requires LeanPairs(entries, size) && PlainEntry(e) && CarriedEntry(e, true)
    ensures LeanPairs(Put(entries, e), size + |EncodeEntry(e)|)
    decreases |entries|
  {
    if entries != [] {
      var first, rest := entries[0], entries[1..];
      if first.key == e.key {
        assert Put(entries, e)[1..] == rest;
      } else {
        PutIsLean(rest, e, size - |EncodeEntry(first)|);
        assert Put(entries, e)[1..] == Put(rest, e);
      }
    } else {
      assert [e][1..] == [];
    }
  }

  lemma {:induction false} AppendSplits(pairs: seq<Entry>, e: Entry)
    requires PlainPairs(pairs + [e]) && CarriedPairs(pairs + [e], true)
    ensures PlainPairs(pairs) && PlainEntry(e) && CarriedPairs(pairs, true) && CarriedEntry(e, true)
    ensures |EncodePairs(pairs + [e])| == |EncodePairs(pairs)| + |EncodeEntry(e)|
    decreases |pairs|
  {
    if pairs != [] {
      assert (pairs + [e])[1..] == pairs[1..] + [e];
      AppendSplits(pairs[1..], e);
    } else {
      assert pairs + [e] == [e] && [e][1..] == [];
    }
  }

  /** Merging repeated keys never lengthens a map. */
  lemma {:induction false} FromPairsIsLean(pairs: seq<Entry>, size: int)
    requires LeanPairs(pairs, size)
    ensures LeanPairs(FromPairs(pairs), size)
    decreases |pairs|
  {
    if pairs != [] {
      var front, last := pairs[..|pairs| - 1], pairs[|pairs| - 1];
      assert pairs == front + [last];
      AppendSplits(front, last);
      FromPairsIsLean(front, size - |EncodeEntry(last)|);
      PutIsLean(FromPairs(front), last, size - |EncodeEntry(last)|);
    }
  }

  /** A reading from `at` that stops inside the buffer. */
  predicate Inside<T>(buf: Bytes, at: nat, p: Parsed<T>) {
    p.next.Index? && at <= p.next.i <= |buf|
  }

  /** `size` bytes of encoding for `span` bytes of input: the account of the log is exact. */
  ghost predicate Accounted(size: int, span: int, log: Log) {
    size == span + Growth(log) - Spare(log) && Spare(log) >= 0 && size <= 3 * span
  }

  ghost predicate ItemAccount(at: nat, p: Parsed<Value>) {
    && p.next.Index? && Plain(p.value) && Carried(p.value, true)
    && Accounted(|Encode(p.value)|, p.next.i - at, p.log)
  }

  ghost predicate ItemsAccount(at: nat, p: Parsed<seq<Value>>) {
    && p.next.Index? && PlainItems(p.value) && CarriedItems(p.value, true)
    && Accounted(|EncodeItems(p.value)|, p.next.i - at, p.log)
  }

  ghost predicate PairsAccount(at: nat, p: Parsed<seq<Entry>>) {
    && p.next.Index? && PlainPairs(p.value) && CarriedPairs(p.value, true)
    && Accounted(|EncodePairs(p.value)|, p.next.i - at, p.log)
  }

  lemma AccountsJoin(a: int, b: int, span: int, more: int, first: Log, second: Log)
    requires Accounted(a, span, first) && Accounted(b, more, second)
    ensures Accounted(a + b, span + more, Then(first, second))
  {
  }

  lemma {:induction false} ItemIsAccounted(buf: Bytes, at: nat, p: Parsed<Value>)
    requires DecodeItem(buf, Index(at)) == Ok(p) && Inside(buf, at, p)
    ensures ItemAccount(at, p)
    decreases Left(buf, Index(at)), 0, 0
  {
    var head := ReadLength(buf, at + 1, buf[at] % 32).value;
    var major := buf[at] / 32;
    var rest := DecodeContent(buf, major, head.value, head.next).value;
    HeadIsShortest(buf, at + 1, buf[at] % 32, major);
    ContentIsAccounted(buf, major, head.value.n, head.next.i, rest);
    HeadedItem(at, major, head, rest, p);
  }

  /** A head that may be longer than needed, and the content behind it. */
  lemma HeadedItem(at: nat, major: nat, head: Parsed<Length>, rest: Parsed<Value>, p: Parsed<Value>)
    requires major < 8 && head.value.Count? && head.next.Index? && at < head.next.i
    requires Growth(head.log) == 0 && Spare(head.log) == head.next.i - at - |Head(major, head.value.n)| >= 0
    requires ContentAccount(|Head(major, head.value.n)|, head.next.i, rest)
    requires p.value == rest.value && p.next == rest.next
    requires p.log == Call(Then(Took(at, at + 1), Then(head.log, rest.log)))
    ensures ItemAccount(at, p)
  {
    var body := Then(Took(at, at + 1), Then(head.log, rest.log));
    assert Growth(body) == Growth(Then(head.log, rest.log)) == Growth(rest.log);
    assert Spare(body) == Spare(Then(head.log, rest.log)) == Spare(head.log) + Spare(rest.log);
  }

  /** The content of an item, with the shortest head before it. */
  ghost predicate ContentAccount(head: nat, offset: nat, p: Parsed<Value>) {
    && p.next.Index? && offset <= p.next.i && Plain(p.value) && Carried(p.value, true)
    && Accounted(|Encode(p.value)|, head + p.next.i - offset, p.log)
  }

  lemma {:induction false} ContentIsAccounted(buf: Bytes, major: nat, len: nat, offset: nat, p: Parsed<Value>)
    requires major < 8 && len < TWO32
    requires DecodeContent(buf, major, Count(len), Index(offset)) == Ok(p) && Inside(buf, offset, p)
    ensures ContentAccount(|Head(major, len)|, offset, p)
    decreases Left(buf, Index(offset)), 2, 0
  {
    if major == 3 {
      TextIsAccounted(buf[offset..offset + len], offset, p);
    } else if major == 4 {
      var items := DecodeItems(buf, Index(offset), len).value;
      ItemsAreAccounted(buf, offset, len, items);
      ItemsCounted(buf, Index(offset), len);
      ListIsAccounted(offset, items, p);
    } else if major == 5 {
      var pairs := DecodePairs(buf, Index(offset), len).value;
      PairsAreAccounted(buf, offset, len, pairs);
      PairsCounted(buf, Index(offset), len);
      DictIsAccounted(offset, pairs, p);
    }
  }

  lemma ListIsAccounted(offset: nat, items: Parsed<seq<Value>>, p: Parsed<Value>)
    requires ItemsAccount(offset, items) && offset <= items.next.i
    requires p.value == List(items.value) && p.next == items.next && p.log == items.log
    ensures ContentAccount(|Head(4, |items.value|)|, offset, p)
  {
  }

  lemma DictIsAccounted(offset: nat, pairs: Parsed<seq<Entry>>, p: Parsed<Value>)
    requires PairsAccount(offset, pairs) && offset <= pairs.next.i
    requires p.value == Dict(FromPairs(pairs.value)) && p.next == pairs.next &&
             p.log == Then(pairs.log, Filled(pairs.value))
    ensures ContentAccount(|Head(5, |pairs.value|)|, offset, p)
  {
    FromPairsIsLean(pairs.value, |EncodePairs(pairs.value)|);
    FromPairsKeeps(pairs.value);
    HeadGrows(5, |FromPairs(pairs.value)|, |pairs.value|);
  }

  lemma TextIsAccounted(t: Bytes, offset: nat, p: Parsed<Value>)
    requires p.value == Text(DecodeText(t)) && p.next == Index(offset + |t|) &&
             p.log == Then(Took(offset, offset + |t|), Raw(t))
    ensures ContentAccount(|Head(3, |t|)|, offset, p)
  {
    DecodeTextKeepsExactly(t);
    TextTriples(t);
  }

  lemma TextTriples(t: Bytes)
    ensures |Head(3, |DecodeText(t)|)| + |DecodeText(t)| <= 3 * (|Head(3, |t|)| + |t|)
  {
    RepairAtMostTriples(if StartsWithBom(t) then t[3..] else t);
    HeadTriples(3, |t|, |DecodeText(t)|);
  }

  lemma {:induction false} ItemsCounted(buf: Bytes, at: Pos, count: nat)
    requires DecodeItems(buf, at, count).Ok?
    ensures |DecodeItems(buf, at, count).value.value| == count
    decreases count
  {
    if count > 0 {
      ItemsCounted(buf, DecodeItem(buf, at).value.next, count - 1);
    }
  }

  lemma {:induction false} PairsCounted(buf: Bytes, at: Pos, count: nat)
    requires DecodePairs(buf, at, count).Ok?
    ensures |DecodePairs(buf, at, count).value.value| == count
    decreases count
  {
    if count > 0 {
      PairsCounted(buf, DecodeItem(buf, DecodeItem(buf, at).value.next).value.next, count - 1);
    }
  }

  lemma {:induction false} ItemsAreAccounted(buf: Bytes, at: nat, count: nat, p: Parsed<seq<Value>>)
    requires DecodeItems(buf, Index(at), count) == Ok(p) && Inside(buf, at, p)
    ensures ItemsAccount(at, p)
    decreases Left(buf, Index(at)), 1, count
  {
    if count > 0 {
      var item := DecodeItem(buf, Index(at)).value;
      var rest := DecodeItems(buf, item.next, count - 1).value;
      ItemIsAccounted(buf, at, item);
      ItemsAreAccounted(buf, item.next.i, count - 1, rest);
      ItemsJoin(at, item, rest, p);
    }
  }

  lemma ItemsJoin(at: nat, item: Parsed<Value>, rest: Parsed<seq<Value>>, all: Parsed<seq<Value>>)
    requires ItemAccount(at, item) && ItemsAccount(item.next.i, rest)
    requires all.value == [item.value] + rest.value && all.next == rest.next && all.log == Then(item.log, rest.log)
    ensures ItemsAccount(at, all)
  {
    assert all.value[1..] == rest.value;
  }

  lemma {:induction false} PairsAreAccounted(buf: Bytes, at: nat, count: nat, p: Parsed<seq<Entry>>)
    requires DecodePairs(buf, Index(at), count) == Ok(p) && Inside(buf, at, p)
    ensures PairsAccount(at, p)
    decreases Left(buf, Index(at)), 1, count
  {
    if count > 0 {
      var key, val, rest := PairsTurn(buf, at, count, p);
      EntryIsAccounted(buf, at, key, val);
      PairsAreAccounted(buf, val.next.i, count - 1, rest);
      PairsJoin(at, key, val, rest, p);
    }
  }

  /** A key and its value. */
  lemma {:induction false} EntryIsAccounted(buf: Bytes, at: nat, key: Parsed<Value>, val: Parsed<Value>)
    requires DecodeItem(buf, Index(at)) == Ok(key) && Inside(buf, at, key)
    requires DecodeItem(buf, key.next) == Ok(val) && Inside(buf, key.next.i, val)
    ensures ItemAccount(at, key) && ItemAccount(key.next.i, val)
    decreases Left(buf, Index(at)), 1, 0
  {
    ItemIsAccounted(buf, at, key);
    ItemIsAccounted(buf, key.next.i, val);
  }

  /** One turn of the map loop of a reading that stops at a real position. */
  lemma PairsTurn(buf: Bytes, at: nat, count: nat, p: Parsed<seq<Entry>>)
    returns (key: Parsed<Value>, val: Parsed<Value>, rest: Parsed<seq<Entry>>)
    requires count > 0 && DecodePairs(buf, Index(at), count) == Ok(p) && p.next.Index?
    ensures DecodeItem(buf, Index(at)) == Ok(key) && DecodeItem(buf, key.next) == Ok(val)
    ensures DecodePairs(buf, val.next, count - 1) == Ok(rest)
    ensures key.next.Index? && val.next.Index? && at < key.next.i < val.next.i <= p.next.i && IsKey(key.value)
    ensures p.value == [Entry(key.value, val.value)] + rest.value && p.next == rest.next
    ensures p.log == Then(key.log, Then(val.log, rest.log))
  {
    key := DecodeItem(buf, Index(at)).value;
    val := DecodeItem(buf, key.next).value;
    rest := DecodePairs(buf, val.next, count - 1).value;
  }

  lemma PairsJoin(at: nat, key: Parsed<Value>, val: Parsed<Value>, rest: Parsed<seq<Entry>>, all: Parsed<seq<Entry>>)
    requires IsKey(key.value) && ItemAccount(at, key) && ItemAccount(key.next.i, val)
    requires PairsAccount(val.next.i, rest)
    requires all.value == [Entry(key.value, val.value)] + rest.value && all.next == rest.next
    requires all.log == Then(key.log, Then(val.log, rest.log))
    ensures PairsAccount(at, all)
  {
    assert all.value[1..] == rest.value;
    AccountsJoin(|Encode(val.value)|, |EncodePairs(rest.value)|, val.next.i - key.next.i, rest.next.i - val.next.i,
      val.log, rest.log);
    AccountsJoin(|Encode(key.value)|, |Encode(val.value)| + |EncodePairs(rest.value)|,
                 key.next.i - at, rest.next.i - key.next.i, key.log, Then(val.log, rest.log));
  }

  // -------- when re-encoding is no longer --------

  /** A text's encoding is no longer than what was read of it exactly when repair did not lengthen it. */
  lemma TextGrowsExactly(t: Bytes)
    ensures TextGrowth(t) <= 0 <==> |DecodeText(t)| <= |t|
  {
    if |DecodeText(t)| <= |t| {
      HeadGrows(3, |DecodeText(t)|, |t|);
    } else {
      HeadGrows(3, |t|, |DecodeText(t)|);
    }
  }

  lemma {:induction false} GrowthIsOfTexts(log: Log)
    requires NoTextGrows(log)
    ensures Growth(log) <= 0
    decreases log
  {
    match log {
      case Raw(text) => TextGrowsExactly(text);
      case Call(body) => GrowthIsOfTexts(body);
      case Then(first, second) =>
        GrowthIsOfTexts(first);
        GrowthIsOfTexts(second);
      case _ =>
    }
  }

  lemma {:induction false} TightSparesNothing(log: Log)
    requires Tight(log)
    ensures Spare(log) == 0
    decreases log
  {
    match log {
      case Filled(pairs) => FromPairsKeeps(pairs);
      case Call(body) => TightSparesNothing(body);
      case Then(first, second) =>
        TightSparesNothing(first);
        TightSparesNothing(second);
      case _ =>
    }
  }

  /**
   * The exact account of every accepted input: it gives a value of the source's
   * type with 32-bit magnitudes and distinct keys, and encoding that takes the
   * input's length, plus what repair added to texts, minus what longer heads
   * and replaced entries had taken; in any case at most three times the input.
   */
  lemma ReencodingIsAccounted(buf: Bytes)
    requires Decode(buf).Ok?
    ensures Plain(Decode(buf).value) && Carried(Decode(buf).value, true)
    ensures var log, size := DecodeFirst(buf).value.log, |Encode(Decode(buf).value)|;
            && size == |buf| + Growth(log) - Spare(log) && Spare(log) >= 0 && size <= 3 * |buf|
            && (size <= |buf| <==> Growth(log) <= Spare(log))
  {
    ItemIsAccounted(buf, 0, DecodeFirst(buf).value);
  }

  /**
   * So encoding again is never longer when repair lengthened no text; and when
   * each head was the shortest and no key came twice, it is no longer exactly
   * when repair lengthened the texts by nothing in all.
   */
  lemma ReencodingIsShort(buf: Bytes)
    requires Decode(buf).Ok?
    ensures Plain(Decode(buf).value)
    ensures NoTextGrows(DecodeFirst(buf).value.log) ==> |Encode(Decode(buf).value)| <= |buf|
    ensures Tight(DecodeFirst(buf).value.log) ==>
              (|Encode(Decode(buf).value)| <= |buf| <==> Growth(DecodeFirst(buf).value.log) <= 0)
  {
    var log := DecodeFirst(buf).value.log;
    ReencodingIsAccounted(buf);
    if NoTextGrows(log) {
      GrowthIsOfTexts(log);
    }
    if Tight(log) {
      TightSparesNothing(log);
    }
  }

  lemma TextContentReads(buf: Bytes, len: Length, start: nat)
    requires var r := DecodeContent(buf, 3, len, Index(start)); r.Ok? && r.value.next == Index(|buf|)
    ensures len.Count? && start + len.n == |buf|
    ensures DecodeContent(buf, 3, len, Index(start)).value.value == Text(DecodeText(buf[start..]))
  {
    assert Slice(buf, len, start).Some? && len.Count? && start + len.n == |buf|;
    assert buf[start..start + len.n] == buf[start..];
  }

  /** The whole of an accepted text item is its head and its contents. */
  lemma TextItemReads(buf: Bytes) returns (start: nat, t: Bytes)
    requires Decode(buf).Ok? && buf != [] && buf[0] / 32 == 3
    ensures start <= |buf| && t == buf[start..] && |Head(3, |t|)| <= start
    ensures ReadLength(buf, 1, buf[0] % 32).Ok? && ReadLength(buf, 1, buf[0] % 32).value.next == Index(start)
    ensures Decode(buf).value == Text(DecodeText(t))
  {
    var head := ReadLength(buf, 1, buf[0] % 32).value;
    var content := DecodeContent(buf, 3, head.value, head.next);
    assert DecodeItem(buf, Index(0)).Ok? && content.Ok? && content.value.next == Index(|buf|);
    TextContentReads(buf, head.value, head.next.i);
    HeadIsShortest(buf, 1, buf[0] % 32, 3);
    start, t := head.next.i, buf[head.next.i..];
  }

  /**
   * An accepted text item is encoded no longer than it was if and only if
   * repair lengthened it by no more than its head spares; with the shortest
   * head, if and only if repair did not lengthen it.
   */
  lemma TextItemIsShortExactly(buf: Bytes) returns (start: nat, t: Bytes)
    requires Decode(buf).Ok? && buf != [] && buf[0] / 32 == 3
    ensures start <= |buf| && t == buf[start..] && Decode(buf).value == Text(DecodeText(t)) &&
            Plain(Text(DecodeText(t)))
    ensures |Encode(Text(DecodeText(t)))| <= |buf| <==> TextGrowth(t) <= start - |Head(3, |t|)|
    ensures start == |Head(3, |t|)| ==> (|Encode(Text(DecodeText(t)))| <= |buf| <==> |DecodeText(t)| <= |t|)
  {
    start, t := TextItemReads(buf);
    DecodeTextKeepsExactly(t);
    TextGrowsExactly(t);
  }

  /** No input that repair lengthens no text of decodes to a value and is shorter than its encoding. */
  lemma EncoderIsShortest(v: Value, buf: Bytes)
    requires Decode(buf) == Ok(v) && NoTextGrows(DecodeFirst(buf).value.log)
    ensures Plain(v) && |Encode(v)| <= |buf|
  {
    ReencodingIsShort(buf);
  }

  /** A repaired text does lengthen: the two bytes 61 FF come back as four. */
  lemma RepairLengthens()
    ensures Decode([0x61, 0xFF]) == Ok(Text(REPLACEMENT))
    ensures Plain(Text(REPLACEMENT)) && |Encode(Text(REPLACEMENT))| == 4
  {
    TextOfOneByte(0xFF);
    RepairOfFF();
    assert WellFormed(REPLACEMENT) by {
      assert FrontOf(REPLACEMENT) == Front(true, 3) && REPLACEMENT[3..] == [];
    }
  }

  lemma TextOfOneByte(b: Byte)
    ensures Decode([0x61, b]) == Ok(Text(DecodeText([b])))
  {
    var buf: Bytes := [0x61, b];
    assert Head(3, 1) == [0x61] == buf[0..1] && buf[1..2] == [b];
    TextItem(buf, 0, [b]);
  }

  lemma RepairOfFF()
    ensures DecodeText([0xFF]) == REPLACEMENT
  {
    var s: Bytes := [0xFF];
    assert FrontOf(s) == Front(false, 1) && s[1..] == [];
    assert Repair(s) == REPLACEMENT + Repair([]);
  }

  /** Decoding what was re-encoded gives the same value again, exactly when no text begins with a byte order mark. */
  lemma ReencodingIsStable(buf: Bytes)
    requires Decode(buf).Ok? && Sized(Decode(buf).value)
    ensures Plain(Decode(buf).value)
    ensures Decode(Encode(Decode(buf).value)) == Decode(buf) <==> Exact(Decode(buf).value)
  {
    ReencodingIsShort(buf);
    RoundTripExactly(Decode(buf).value);
  }
}
