/** What a reading depends on, and how much work it is, for inputs that are refused or end too early as well. */
module CborBounds {
  import opened Common
  import opened Cbor
  import opened CborReads

  // -------- a reading depends on what it took --------

  /** Both buffers hold the first `n` bytes, and they are the same. */
  predicate Agree(buf: Bytes, other: Bytes, n: nat) {
    n <= |buf| && n <= |other| && forall i | 0 <= i < n :: buf[i] == other[i]
  }

  /** The reading stopped at a real position, no further than `n`. */
  predicate StopsBy<T>(p: Parsed<T>, n: nat) {
    p.next.Index? && p.next.i <= n
  }

  lemma {:induction false} ItemIsLocal(buf: Bytes, other: Bytes, n: nat, at: Pos)
    requires Agree(buf, other, n) && DecodeItem(buf, at).Ok? && StopsBy(DecodeItem(buf, at).value, n)
    ensures DecodeItem(other, at) == DecodeItem(buf, at)
    decreases Left(buf, at), 0, 0
  {
    var head := ReadLength(buf, at.i + 1, buf[at.i] % 32).value;
    HeadIsLocal(buf, other, n, at.i + 1, buf[at.i] % 32);
    ContentIsLocal(buf, other, n, buf[at.i] / 32, head.value, head.next);
  }

  lemma HeadIsLocal(buf: Bytes, other: Bytes, n: nat, at: nat, info: nat)
    requires Agree(buf, other, n) && ReadLength(buf, at, info).Ok? && StopsBy(ReadLength(buf, at, info).value, n)
    ensures ReadLength(other, at, info) == ReadLength(buf, at, info)
  {
  }

  lemma SliceIsLocal(buf: Bytes, other: Bytes, n: nat, len: Length, at: nat)
    requires Agree(buf, other, n) && Slice(buf, len, at).Some? && StopsBy(Slice(buf, len, at).value, n)
    ensures Slice(other, len, at) == Slice(buf, len, at)
  {
    assert buf[at..at + len.n] == other[at..at + len.n];
  }

  lemma {:induction false} ContentIsLocal(buf: Bytes, other: Bytes, n: nat, major: nat, len: Length, offset: Pos)
    requires Agree(buf, other, n) && offset.Index? && DecodeContent(buf, major, len, offset).Ok?
    requires StopsBy(DecodeContent(buf, major, len, offset).value, n)
    ensures DecodeContent(other, major, len, offset) == DecodeContent(buf, major, len, offset)
    decreases Left(buf, offset), 2, 0
  {
    if major == 4 {
      ItemsAreLocal(buf, other, n, offset, Times(len));
    } else if major == 5 {
      PairsAreLocal(buf, other, n, offset, Times(len));
    } else if major == 2 || major == 3 {
      SliceIsLocal(buf, other, n, len, offset.i);
    }
  }

  lemma {:induction false} ItemsAreLocal(buf: Bytes, other: Bytes, n: nat, at: Pos, count: nat)
    requires Agree(buf, other, n) && DecodeItems(buf, at, count).Ok? && StopsBy(DecodeItems(buf, at, count).value, n)
    ensures DecodeItems(other, at, count) == DecodeItems(buf, at, count)
    decreases Left(buf, at), 1, count
  {
    if count > 0 {
      var item := DecodeItem(buf, at).value;
      ItemIsLocal(buf, other, n, at);
      ItemsAreLocal(buf, other, n, item.next, count - 1);
    }
  }

  lemma {:induction false} PairsAreLocal(buf: Bytes, other: Bytes, n: nat, at: Pos, count: nat)
    requires Agree(buf, other, n) && DecodePairs(buf, at, count).Ok? && StopsBy(DecodePairs(buf, at, count).value, n)
    ensures DecodePairs(other, at, count) == DecodePairs(buf, at, count)
    decreases Left(buf, at), 1, count
  {
    if count > 0 {
      var key := DecodeItem(buf, at).value;
      var val := DecodeItem(buf, key.next).value;
      ItemIsLocal(buf, other, n, at);
      ItemIsLocal(buf, other, n, key.next);
      PairsAreLocal(buf, other, n, val.next, count - 1);
    }
  }

  /** Some first bytes of `rest`, taken alone and wholly, are this value. */
  ghost predicate BeginsWith(rest: Bytes, v: Value) {
    exists n: nat :: n <= |rest| && Decode(rest[..n]) == Ok(v)
  }

  /** The first item was read without running past the end. */
  predicate StopsInside(rest: Bytes) {
    DecodeFirst(rest).Ok? && StopsBy(DecodeFirst(rest).value, |rest|)
  }

  /** A prefix that is one whole item is what is read of the bytes it begins. */
  lemma PrefixIsRead(rest: Bytes, n: nat)
    requires n <= |rest| && Decode(rest[..n]).Ok?
    ensures DecodeFirst(rest) == DecodeFirst(rest[..n]) && DecodeFirst(rest).value.next == Index(n)
  {
    ItemIsLocal(rest[..n], rest, n, Index(0));
  }

  /**
   * The first item read is a value that the bytes really begin with if and
   * only if the reading stopped inside them.
   */
  lemma FirstItemIsThereExactly(rest: Bytes, v: Value)
    ensures BeginsWith(rest, v) <==> StopsInside(rest) && DecodeFirst(rest).value.value == v
  {
    if BeginsWith(rest, v) {
      var n: nat :| n <= |rest| && Decode(rest[..n]) == Ok(v);
      PrefixIsRead(rest, n);
    }
    if StopsInside(rest) && DecodeFirst(rest).value.value == v {
      var n := DecodeFirst(rest).value.next.i;
      ItemIsLocal(rest, rest[..n], n, Index(0));
      assert Decode(rest[..n]) == Ok(v);
    }
  }

  // -------- when a reading runs past the end --------

  /** Every byte that the reading took is there. */
  predicate TookReal(buf: Bytes, log: Log) {
    forall t | t in Touched(log) :: 0 <= t < |buf|
  }

  /** The buffer ends behind the first byte of a string's head that announces one or four bytes of length. */
  predicate EndsInStringHead(buf: Bytes) {
    buf != [] && buf[|buf| - 1] in {0x58, 0x5A, 0x78, 0x7A}
  }

  /** A position of NaN comes of such an end alone, where the length byte that is not there was taken. */
  predicate LostAtEnd<T>(buf: Bytes, at: Pos, p: Parsed<T>) {
    at.Index? && p.next.Nowhere? ==> EndsInStringHead(buf) && |buf| in Touched(p.log)
  }

  lemma {:induction false} ItemIsLost(buf: Bytes, at: Pos)
    requires DecodeItem(buf, at).Ok?
    ensures LostAtEnd(buf, at, DecodeItem(buf, at).value)
    decreases Left(buf, at), 0, 0
  {
    if at.Index? {
      var major, info := buf[at.i] / 32, buf[at.i] % 32;
      var head := ReadLength(buf, at.i + 1, info).value;
      var rest := DecodeContent(buf, major, head.value, head.next).value;
      ItemTouches(at.i, head.log, rest.log);
      if major == 2 || major == 3 {
        if !head.value.Count? {
          HeadWasCut(buf, at.i, info);
        }
      } else {
        ContentIsLost(buf, major, head.value, head.next);
      }
    }
  }

  lemma ItemTouches(at: nat, head: Log, rest: Log)
    ensures Touched(Call(Then(Took(at, at + 1), Then(head, rest)))) ==
            Range(at, at + 1) + (Touched(head) + Touched(rest))
  {
    var body := Then(Took(at, at + 1), Then(head, rest));
    assert Touched(body) == Range(at, at + 1) + Touched(Then(head, rest));
  }

  lemma HeadWasCut(buf: Bytes, at: nat, info: nat)
    requires at < |buf| && ReadLength(buf, at + 1, info).Ok? && !ReadLength(buf, at + 1, info).value.value.Count?
    ensures at == |buf| - 1 && (info == 24 || info == 26)
    ensures |buf| in Touched(ReadLength(buf, at + 1, info).value.log)
  {
    var size := if info == 24 then 1 else 4;
    assert ReadLength(buf, at + 1, info).value.log == Then(Took(at + 1, at + 1 + size), Nothing);
    assert Range(at + 1, at + 1 + size)[0] == |buf|;
  }

  lemma {:induction false} ContentIsLost(buf: Bytes, major: nat, len: Length, offset: Pos)
    requires offset.Index? && DecodeContent(buf, major, len, offset).Ok? && major != 2 && major != 3
    ensures LostAtEnd(buf, offset, DecodeContent(buf, major, len, offset).value)
    decreases Left(buf, offset), 2, 0
  {
    if major == 4 {
      ItemsAreLost(buf, offset, Times(len));
    } else if major == 5 {
      PairsAreLost(buf, offset, Times(len));
    }
  }

  lemma {:induction false} ItemsAreLost(buf: Bytes, at: Pos, count: nat)
    requires DecodeItems(buf, at, count).Ok?
    ensures LostAtEnd(buf, at, DecodeItems(buf, at, count).value)
    decreases Left(buf, at), 1, count
  {
    if count > 0 {
      ItemIsLost(buf, at);
      ItemsAreLost(buf, DecodeItem(buf, at).value.next, count - 1);
    }
  }

  lemma {:induction false} PairsAreLost(buf: Bytes, at: Pos, count: nat)
    requires DecodePairs(buf, at, count).Ok?
    ensures LostAtEnd(buf, at, DecodePairs(buf, at, count).value)
    decreases Left(buf, at), 1, count
  {
    if count > 0 {
      var key := DecodeItem(buf, at).value;
      ItemIsLost(buf, at);
      ItemIsLost(buf, key.next);
      PairsAreLost(buf, DecodeItem(buf, key.next).value.next, count - 1);
    }
  }

  /** A reading stops inside the buffer if and only if every byte it took is there. */
  lemma StopsInsideExactly(buf: Bytes)
    requires DecodeFirst(buf).Ok?
    ensures StopsInside(buf) <==> TookReal(buf, DecodeFirst(buf).value.log)
    ensures DecodeFirst(buf).value.next.Nowhere? ==> EndsInStringHead(buf)
  {
    var p := DecodeFirst(buf).value;
    ItemReads(buf, Index(0));
    ItemIsLost(buf, Index(0));
    if p.next.Index? {
      RangeHolds(0, p.next.i);
      assert p.next.i - 1 in Touched(p.log);
    }
  }

  lemma {:induction false} RangeHolds(lo: int, hi: int)
    ensures forall t :: t in Range(lo, hi) <==> lo <= t < hi
    decreases hi - lo
  {
    if lo < hi {
      RangeHolds(lo + 1, hi);
    }
  }

  // -------- how often the decoder calls for an item --------

  /** The room left behind a position. */
  function Room(buf: Bytes, at: Pos): nat {
    if at.Index? && at.i <= |buf| then |buf| - at.i else 0
  }

  /** How often reading an item calls for one, whether the reading succeeds or not. */
  function ItemCalls(buf: Bytes, at: Pos): nat
    decreases Left(buf, at), 0, 0
  {
    if at.Nowhere? || at.i >= |buf| then 1
    else
      match ReadLength(buf, at.i + 1, buf[at.i] % 32)
      case Err(_) => 1
      case Ok(head) => 1 + ContentCalls(buf, buf[at.i] / 32, head.value, head.next)
  }

  function ContentCalls(buf: Bytes, major: nat, len: Length, offset: Pos): nat
    requires offset.Index?
    decreases Left(buf, offset), 2, 0
  {
    if major == 4 then ItemsCalls(buf, offset, Times(len))
    else if major == 5 then PairsCalls(buf, offset, Times(len))
    else 0
  }

  function ItemsCalls(buf: Bytes, at: Pos, count: nat): nat
    decreases Left(buf, at), 1, count
  {
    if count == 0 then 0
    else
      match DecodeItem(buf, at)
      case Err(_) => ItemCalls(buf, at)
      case Ok(item) => ItemCalls(buf, at) + ItemsCalls(buf, item.next, count - 1)
  }

  function PairsCalls(buf: Bytes, at: Pos, count: nat): nat
    decreases Left(buf, at), 1, count
  {
    if count == 0 then 0
    else
      match DecodeItem(buf, at)
      case Err(_) => ItemCalls(buf, at)
      case Ok(key) =>
        if !IsKey(key.value) then ItemCalls(buf, at)
        else
          match DecodeItem(buf, key.next)
          case Err(_) => ItemCalls(buf, at) + ItemCalls(buf, key.next)
          case Ok(val) => ItemCalls(buf, at) + ItemCalls(buf, key.next) + PairsCalls(buf, val.next, count - 1)
  }

  /** How many of these calls are at the position NaN. */
  function ItemStrays(buf: Bytes, at: Pos): nat
    decreases Left(buf, at), 0, 0
  {
    if at.Nowhere? then 1
    else if at.i >= |buf| then 0
    else
      match ReadLength(buf, at.i + 1, buf[at.i] % 32)
      case Err(_) => 0
      case Ok(head) => ContentStrays(buf, buf[at.i] / 32, head.value, head.next)
  }

  function ContentStrays(buf: Bytes, major: nat, len: Length, offset: Pos): nat
    requires offset.Index?
    decreases Left(buf, offset), 2, 0
  {
    if major == 4 then ItemsStrays(buf, offset, Times(len))
    else if major == 5 then PairsStrays(buf, offset, Times(len))
    else 0
  }

  function ItemsStrays(buf: Bytes, at: Pos, count: nat): nat
    decreases Left(buf, at), 1, count
  {
    if count == 0 then 0
    else
      match DecodeItem(buf, at)
      case Err(_) => ItemStrays(buf, at)
      case Ok(item) => ItemStrays(buf, at) + ItemsStrays(buf, item.next, count - 1)
  }

  function PairsStrays(buf: Bytes, at: Pos, count: nat): nat
    decreases Left(buf, at), 1, count
  {
    if count == 0 then 0
    else
      match DecodeItem(buf, at)
      case Err(_) => ItemStrays(buf, at)
      case Ok(key) =>
        if !IsKey(key.value) then ItemStrays(buf, at)
        else
          match DecodeItem(buf, key.next)
          case Err(_) => ItemStrays(buf, at) + ItemStrays(buf, key.next)
          case Ok(val) => ItemStrays(buf, at) + ItemStrays(buf, key.next) + PairsStrays(buf, val.next, count - 1)
  }

  /** `calls` calls, `strays` of them at NaN, took the reading from `at` to `next`, or to a failure. */
  predicate Within<T>(buf: Bytes, at: Pos, r: Result<Parsed<T>>, calls: nat, strays: nat) {
    && calls <= strays + Room(buf, at) + (if r.Ok? then 0 else 1)
    && (r.Ok? ==> calls + Room(buf, r.value.next) <= strays + Room(buf, at))
    && (strays > 0 ==> at.Nowhere? || EndsInStringHead(buf))
  }

  lemma {:induction false} ItemCallsFit(buf: Bytes, at: Pos)
    ensures Within(buf, at, DecodeItem(buf, at), ItemCalls(buf, at), ItemStrays(buf, at))
    decreases Left(buf, at), 0, 0
  {
    if at.Index? && at.i < |buf| && ReadLength(buf, at.i + 1, buf[at.i] % 32).Ok? {
      var head := ReadLength(buf, at.i + 1, buf[at.i] % 32).value;
      ContentCallsFit(buf, buf[at.i] / 32, head.value, head.next);
    }
  }

  lemma {:induction false} ContentCallsFit(buf: Bytes, major: nat, len: Length, offset: Pos)
    requires offset.Index?
    ensures Within(buf, offset, DecodeContent(buf, major, len, offset), ContentCalls(buf, major, len, offset),
                   ContentStrays(buf, major, len, offset))
    decreases Left(buf, offset), 2, 0
  {
    if major == 4 {
      ItemsCallsFit(buf, offset, Times(len));
    } else if major == 5 {
      PairsCallsFit(buf, offset, Times(len));
    }
  }

  lemma {:induction false} ItemsCallsFit(buf: Bytes, at: Pos, count: nat)
    ensures Within(buf, at, DecodeItems(buf, at, count), ItemsCalls(buf, at, count), ItemsStrays(buf, at, count))
    decreases Left(buf, at), 1, count
  {
    if count > 0 {
      ItemCallsFit(buf, at);
      if DecodeItem(buf, at).Ok? {
        ItemIsLost(buf, at);
        ItemsCallsFit(buf, DecodeItem(buf, at).value.next, count - 1);
      }
    }
  }

  lemma {:induction false} PairsCallsFit(buf: Bytes, at: Pos, count: nat)
    ensures Within(buf, at, DecodePairs(buf, at, count), PairsCalls(buf, at, count), PairsStrays(buf, at, count))
    decreases Left(buf, at), 1, count
  {
    if count > 0 {
      ItemCallsFit(buf, at);
      if DecodeItem(buf, at).Ok? && IsKey(DecodeItem(buf, at).value.value) {
        var key := DecodeItem(buf, at).value;
        ItemIsLost(buf, at);
        ItemCallsFit(buf, key.next);
        if DecodeItem(buf, key.next).Ok? {
          ItemIsLost(buf, key.next);
          PairsCallsFit(buf, DecodeItem(buf, key.next).value.next, count - 1);
        }
      }
    }
  }

  /** For a reading that succeeds, they are the calls of its log. */
  lemma {:induction false} ItemCallsAreLogged(buf: Bytes, at: Pos)
    requires DecodeItem(buf, at).Ok?
    ensures ItemCalls(buf, at) == Calls(DecodeItem(buf, at).value.log)
    decreases Left(buf, at), 0, 0
  {
    if at.Index? {
      var head := ReadLength(buf, at.i + 1, buf[at.i] % 32).value;
      var rest := DecodeContent(buf, buf[at.i] / 32, head.value, head.next).value;
      ContentCallsAreLogged(buf, buf[at.i] / 32, head.value, head.next);
      ItemLogCalls(at.i, head.log, rest.log);
    }
  }

  lemma ItemLogCalls(at: nat, head: Log, rest: Log)
    ensures Calls(Call(Then(Took(at, at + 1), Then(head, rest)))) == 1 + Calls(head) + Calls(rest)
  {
    assert Calls(Then(Took(at, at + 1), Then(head, rest))) == Calls(Then(head, rest));
  }

  lemma {:induction false} ContentCallsAreLogged(buf: Bytes, major: nat, len: Length, offset: Pos)
    requires offset.Index? && DecodeContent(buf, major, len, offset).Ok?
    ensures ContentCalls(buf, major, len, offset) == Calls(DecodeContent(buf, major, len, offset).value.log)
    decreases Left(buf, offset), 2, 0
  {
    if major == 4 {
      ItemsCallsAreLogged(buf, offset, Times(len));
    } else if major == 5 {
      PairsCallsAreLogged(buf, offset, Times(len));
    }
  }

  lemma {:induction false} ItemsCallsAreLogged(buf: Bytes, at: Pos, count: nat)
    requires DecodeItems(buf, at, count).Ok?
    ensures ItemsCalls(buf, at, count) == Calls(DecodeItems(buf, at, count).value.log)
    decreases Left(buf, at), 1, count
  {
    if count > 0 {
      ItemCallsAreLogged(buf, at);
      ItemsCallsAreLogged(buf, DecodeItem(buf, at).value.next, count - 1);
    }
  }

  lemma {:induction false} PairsCallsAreLogged(buf: Bytes, at: Pos, count: nat)
    requires DecodePairs(buf, at, count).Ok?
    ensures PairsCalls(buf, at, count) == Calls(DecodePairs(buf, at, count).value.log)
    decreases Left(buf, at), 1, count
  {
    if count > 0 {
      var key := DecodeItem(buf, at).value;
      var val := DecodeItem(buf, key.next).value;
      ItemCallsAreLogged(buf, at);
      ItemCallsAreLogged(buf, key.next);
      PairsCallsAreLogged(buf, val.next, count - 1);
      var rest := DecodePairs(buf, val.next, count - 1).value;
      assert DecodePairs(buf, at, count).value.log == Then(key.log, Then(val.log, rest.log));
      assert Calls(Then(val.log, rest.log)) == Calls(val.log) + Calls(rest.log);
    }
  }

  /**
   * The work on any input, accepted or refused: at most one call per byte, and
   * one more that fails, beside the calls at the position NaN. Of those there
   * are none unless the input ends in the middle of a string's head.
   */
  lemma CallsStayWithinTheInput(buf: Bytes)
    ensures ItemCalls(buf, Index(0)) <= |buf| + 1 + ItemStrays(buf, Index(0))
    ensures DecodeFirst(buf).Ok? ==>
              && ItemCalls(buf, Index(0)) <= |buf| + ItemStrays(buf, Index(0))
              && ItemCalls(buf, Index(0)) == Calls(DecodeFirst(buf).value.log)
    ensures !EndsInStringHead(buf) ==> ItemStrays(buf, Index(0)) == 0
  {
    ItemCallsFit(buf, Index(0));
    if DecodeFirst(buf).Ok? {
      ItemCallsAreLogged(buf, Index(0));
    }
  }

  /** At NaN every call gives 0, so that a map's loop runs to its count with two calls a turn. */
  lemma {:induction false} PairsAtNowhere(buf: Bytes, count: nat)
    ensures DecodePairs(buf, Nowhere, count).Ok? && DecodePairs(buf, Nowhere, count).value.next.Nowhere?
    ensures PairsCalls(buf, Nowhere, count) == PairsStrays(buf, Nowhere, count) == 2 * count
    decreases count
  {
    if count > 0 {
      PairsAtNowhere(buf, count - 1);
    }
  }

  /** A map announced with 2^32 - 1 entries, its first value cut off. */
  const CUT_MAP: Bytes := [0xBA, 0xFF, 0xFF, 0xFF, 0xFF, 0x01, 0x58]

  lemma CutMapEntry()
    ensures DecodeItem(CUT_MAP, Index(5)).Ok? && DecodeItem(CUT_MAP, Index(5)).value.value == Int(1)
    ensures DecodeItem(CUT_MAP, Index(5)).value.next == Index(6)
    ensures DecodeItem(CUT_MAP, Index(6)).Ok? && DecodeItem(CUT_MAP, Index(6)).value.next == Nowhere
    ensures ItemCalls(CUT_MAP, Index(5)) == ItemCalls(CUT_MAP, Index(6)) == 1
    ensures ItemStrays(CUT_MAP, Index(5)) == ItemStrays(CUT_MAP, Index(6)) == 0
  {
  }

  lemma PairsBehindCut(buf: Bytes, count: nat)
    requires count > 0 && DecodeItem(buf, Index(5)).Ok? && IsKey(DecodeItem(buf, Index(5)).value.value)
    requires DecodeItem(buf, Index(5)).value.next == Index(6)
    requires DecodeItem(buf, Index(6)).Ok? && DecodeItem(buf, Index(6)).value.next == Nowhere
    requires ItemCalls(buf, Index(5)) == ItemCalls(buf, Index(6)) == 1
    requires ItemStrays(buf, Index(5)) == ItemStrays(buf, Index(6)) == 0
    ensures PairsCalls(buf, Index(5), count) == 2 * count && PairsStrays(buf, Index(5), count) == 2 * (count - 1)
  {
    PairsAtNowhere(buf, count - 1);
  }

  /** These seven bytes cost two calls for each entry that was announced. */
  lemma CutMapCosts()
    ensures ItemCalls(CUT_MAP, Index(0)) == 1 + 2 * (TWO32 - 1)
    ensures ItemStrays(CUT_MAP, Index(0)) == 2 * (TWO32 - 2)
  {
    CutMapEntry();
    PairsBehindCut(CUT_MAP, TWO32 - 1);
    assert ReadLength(CUT_MAP, 1, 26).value.value == Count(TWO32 - 1);
    assert ContentCalls(CUT_MAP, 5, Count(TWO32 - 1), Index(5)) == PairsCalls(CUT_MAP, Index(5), TWO32 - 1);
    assert ContentStrays(CUT_MAP, 5, Count(TWO32 - 1), Index(5)) == PairsStrays(CUT_MAP, Index(5), TWO32 - 1);
  }
}
