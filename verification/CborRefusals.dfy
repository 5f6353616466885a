/** Inputs that the decoder refuses, and as what. */
module CborRefusals {
  import opened Common
  import opened Cbor
  import opened CborRoundTrip

  /** What is refused behind a head that can be read. */
  lemma ContentRefuses(buf: Bytes, major: nat, len: nat, at: nat, e: Error)
    requires buf != [] && buf[0] / 32 == major
    requires var r := ReadLength(buf, 1, buf[0] % 32);
             r.Ok? && r.value.value == Count(len) && r.value.next == Index(at)
    requires DecodeContent(buf, major, Count(len), Index(at)) == Err(e)
    ensures DecodeFirst(buf) == Err(e)
  {
  }

  /** Nothing at all, the lengths from 27 on, and the major types 6 and 7. */
  lemma BadFirstBytes(buf: Bytes)
    ensures buf == [] ==> DecodeFirst(buf) == Err(Truncated)
    ensures buf != [] && buf[0] % 32 >= 27 ==> DecodeFirst(buf) == Err(BadLength)
    ensures buf != [] && buf[0] % 32 < 27 && buf[0] >= 0xC0 ==> DecodeFirst(buf) == Err(BadMajor)
  {
    if buf != [] && buf[0] % 32 < 27 && buf[0] >= 0xC0 {
      var head := ReadLength(buf, 1, buf[0] % 32);
      assert buf[0] / 32 >= 6;
      assert DecodeContent(buf, buf[0] / 32, head.value.value, head.value.next) == Err(BadMajor);
    }
  }

  lemma InFront(part: Bytes, rest: Bytes)
    ensures Holds(part + rest, 0, part)
  {
  }

  lemma InMiddle(front: Bytes, part: Bytes, rest: Bytes)
    ensures Holds(front + part + rest, |front|, part)
  {
  }

  /** A head in front reads as its major type and length. */
  lemma HeadInFront(major: nat, len: nat, head: Bytes, rest: Bytes)
    requires major < 8 && len < TWO32 && head == Head(major, len)
    ensures var buf := head + rest;
            && buf != [] && buf[0] / 32 == major
            && var r := ReadLength(buf, 1, buf[0] % 32);
               r.Ok? && r.value.value == Count(len) && r.value.next == Index(|head|)
  {
    InFront(head, rest);
    HeadReads(head + rest, 0, major, len);
  }

  lemma KeyInMiddle(front: Bytes, key: Value, item: Bytes, rest: Bytes)
    requires Plain(key) && Sized(key) && item == Encode(key)
    ensures var r := DecodeItem(front + item + rest, Index(|front|)); r.Ok? && r.value.value == Normal(key)
  {
    InMiddle(front, item, rest);
    DecodesEncoding(front + item + rest, |front|, key);
  }

  /** A string with fewer bytes than its head says. */
  lemma CutStringsAreRefused(major: nat, len: nat, content: Bytes)
    requires (major == 2 || major == 3) && |content| < len < TWO32
    ensures DecodeFirst(Head(major, len) + content) == Err(if major == 2 then TruncatedBytes else TruncatedText)
  {
    var head := Head(major, len);
    HeadInFront(major, len, head, content);
    CutContentIsRefused(head + content, major, len, |head|);
  }

  lemma CutContentIsRefused(buf: Bytes, major: nat, len: nat, at: nat)
    requires (major == 2 || major == 3) && at + len > |buf| && buf != [] && buf[0] / 32 == major
    requires var r := ReadLength(buf, 1, buf[0] % 32);
             r.Ok? && r.value.value == Count(len) && r.value.next == Index(at)
    ensures DecodeFirst(buf) == Err(if major == 2 then TruncatedBytes else TruncatedText)
  {
    ContentRefuses(buf, major, len, at, if major == 2 then TruncatedBytes else TruncatedText);
  }

  /** A map whose first key is an encoded byte string, array or map. */
  lemma BadKeysAreRefused(len: nat, key: Value, rest: Bytes)
    requires 0 < len < TWO32 && Plain(key) && Sized(key) && !key.Int? && !key.Text?
    ensures DecodeFirst(Head(5, len) + Encode(key) + rest) == Err(BadKey)
  {
    var head, item := Head(5, len), Encode(key);
    HeadInFront(5, len, head, item + rest);
    assert head + (item + rest) == head + item + rest;
    KeyInMiddle(head, key, item, rest);
    KeyIsRefused(head + item + rest, len, |head|, Normal(key));
  }

  lemma KeyIsRefused(buf: Bytes, len: nat, at: nat, key: Value)
    requires buf != [] && buf[0] / 32 == 5 && len > 0 && !IsKey(key)
    requires var r := ReadLength(buf, 1, buf[0] % 32);
             r.Ok? && r.value.value == Count(len) && r.value.next == Index(at)
    requires DecodeItem(buf, Index(at)).Ok? && DecodeItem(buf, Index(at)).value.value == key
    ensures DecodeFirst(buf) == Err(BadKey)
  {
    FirstKeyDecides(buf, at, len, key);
    ContentRefuses(buf, 5, len, at, BadKey);
  }

  lemma FirstKeyDecides(buf: Bytes, at: nat, len: nat, key: Value)
    requires len > 0 && !IsKey(key)
    requires DecodeItem(buf, Index(at)).Ok? && DecodeItem(buf, Index(at)).value.value == key
    ensures DecodeContent(buf, 5, Count(len), Index(at)) == Err(BadKey)
  {
  }

  /** Anything behind a whole encoding. */
  lemma TrailingIsRefused(v: Value, suffix: Bytes)
    requires Plain(v) && Sized(v) && suffix != []
    ensures Decode(Encode(v) + suffix) == Err(Trailing)
  {
    FirstItemOfEncoding(v, suffix);
  }
}
