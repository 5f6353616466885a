/** Time-based one-time codes: unpadded base32 (section 6 of RFC 4648) and truncation (section 5.3 of RFC 4226). */
module Totp {
  import opened Common
  import RangeText

  const STEP_MS := 30 * 1000
  const MODULUS := 1000000
  const TWO64 := 0x1_0000_0000_0000_0000
  const LETTERS := "ABCDEFGHIJKLMNOPQRSTUVWXYZ234567"

  // -------- bit strings --------

  type Bit = b: int | 0 <= b < 2

  function Pow2(w: nat): (p: nat)
    ensures p > 0
  {
    if w == 0 then 1 else 2 * Pow2(w - 1)
  }

  /** The low `width` bits, most significant first: `toString(2).padStart(width, "0")`. */
  function Bits(v: nat, width: nat): (bits: seq<Bit>)
    ensures |bits| == width
    decreases width
  {
    if width == 0 then [] else Bits(v / 2, width - 1) + [v % 2]
  }

  /** `parseInt(bits, 2)`. */
  function Value(bits: seq<Bit>): nat
    decreases |bits|
  {
    if bits == [] then 0 else 2 * Value(bits[..|bits| - 1]) + bits[|bits| - 1]
  }

  lemma {:induction false} ValueOfBits(v: nat, width: nat)
    requires v < Pow2(width)
    ensures Value(Bits(v, width)) == v
    decreases width
  {
    if width > 0 {
      ValueOfBits(v / 2, width - 1);
      assert Bits(v, width)[..width - 1] == Bits(v / 2, width - 1);
    }
  }

  lemma {:induction false} BitsOfValue(bits: seq<Bit>)
    ensures Value(bits) < Pow2(|bits|) && Bits(Value(bits), |bits|) == bits
    decreases |bits|
  {
    if bits != [] {
      var front, last := bits[..|bits| - 1], bits[|bits| - 1];
      BitsOfValue(front);
      assert Value(bits) / 2 == Value(front) && Value(bits) % 2 == last;
    }
  }

  /** The values of the whole groups of `width` bits; a shorter rest is dropped. */
  function Grouped(bits: seq<Bit>, width: nat): seq<nat>
    requires width > 0
    decreases |bits|
  {
    if |bits| < width then [] else [Value(bits[..width])] + Grouped(bits[width..], width)
  }

  function Spread(values: seq<nat>, width: nat): (bits: seq<Bit>)
    ensures |bits| == |values| * width
    decreases |values|
  {
    if values == [] then [] else Bits(values[0], width) + Spread(values[1..], width)
  }

  predicate Fit(values: seq<nat>, width: nat) {
    forall i | 0 <= i < |values| :: values[i] < Pow2(width)
  }

  /** How many whole groups of `width` there are in `n`, and how much they cover. */
  function Groups(n: nat, width: nat): nat
    requires width > 0
  {
    if n < width then 0 else 1 + Groups(n - width, width)
  }

  function Whole(n: nat, width: nat): (w: nat)
    requires width > 0
    ensures w <= n
  {
    if n < width then 0 else width + Whole(n - width, width)
  }

  lemma {:induction false} GroupsDivide(n: nat)
    ensures Groups(n, 8) == n / 8 && Groups(n, 5) == n / 5 && Whole(n, 5) == n / 5 * 5
    decreases n
  {
    if n >= 8 {
      GroupsDivide(n - 8);
    }
    if n >= 5 {
      GroupsDivide(n - 5);
    }
  }

  lemma {:induction false} GroupedFits(bits: seq<Bit>, width: nat)
    requires width > 0
    ensures Fit(Grouped(bits, width), width) && |Grouped(bits, width)| == Groups(|bits|, width)
    decreases |bits|
  {
    if |bits| >= width {
      BitsOfValue(bits[..width]);
      GroupedFits(bits[width..], width);
    }
  }

  /** Spreading what was grouped loses only the rest that filled no group. */
  lemma {:induction false} SpreadOfGrouped(bits: seq<Bit>, width: nat)
    requires width > 0
    ensures Spread(Grouped(bits, width), width) == bits[..Whole(|bits|, width)]
    decreases |bits|
  {
    if |bits| >= width {
      var first, rest := bits[..width], bits[width..];
      SpreadOfGrouped(rest, width);
      BitsOfValue(first);
      var n := Whole(|rest|, width);
      assert bits[..width + n] == first + rest[..n];
    }
  }

  lemma {:induction false} GroupedOfSpread(values: seq<nat>, width: nat)
    requires width > 0 && Fit(values, width)
    ensures Grouped(Spread(values, width), width) == values
    decreases |values|
  {
    if values != [] {
      var bits := Spread(values, width);
      assert bits[..width] == Bits(values[0], width) && bits[width..] == Spread(values[1..], width);
      ValueOfBits(values[0], width);
      GroupedOfSpread(values[1..], width);
    }
  }

  /** Grouping a front part gives the groups that lie wholly in it. */
  lemma {:induction false} GroupedOfFront(bits: seq<Bit>, width: nat, n: nat)
    requires width > 0 && n <= |bits|
    ensures Groups(n, width) <= |Grouped(bits, width)|
    ensures Grouped(bits[..n], width) == Grouped(bits, width)[..Groups(n, width)]
    decreases n
  {
    if n >= width {
      GroupedOfFront(bits[width..], width, n - width);
      assert bits[..n][..width] == bits[..width];
      assert bits[..n][width..] == bits[width..][..n - width];
    }
  }

  // -------- base32 --------

  /** The letter of a value: A to Z, then 2 to 7. */
  function Letter(v: nat): char
    requires v < 32
  {
    if v < 26 then 'A' + v as char else '2' + (v - 26) as char
  }

  /** These are the letters of the alphabet, in its order. */
  lemma LettersAreTheAlphabet(v: nat)
    requires v < 32
    ensures LETTERS[v] == Letter(v)
  {
    if v < 13 {
      FirstLetters(v);
    } else if v < 26 {
      MiddleLetters(v);
    } else {
      LastLetters(v);
    }
  }

  lemma FirstLetters(v: nat)
    requires v < 13
    ensures LETTERS[v] == 'A' + v as char
  {
    assert LETTERS[0] == 'A' && LETTERS[1] == 'B' && LETTERS[2] == 'C' && LETTERS[3] == 'D' && LETTERS[4] == 'E';
    assert LETTERS[5] == 'F' && LETTERS[6] == 'G' && LETTERS[7] == 'H' && LETTERS[8] == 'I' && LETTERS[9] == 'J';
    assert LETTERS[10] == 'K' && LETTERS[11] == 'L' && LETTERS[12] == 'M';
  }

  lemma MiddleLetters(v: nat)
    requires 13 <= v < 26
    ensures LETTERS[v] == 'A' + v as char
  {
    assert LETTERS[13] == 'N' && LETTERS[14] == 'O' && LETTERS[15] == 'P' && LETTERS[16] == 'Q' && LETTERS[17] == 'R';
    assert LETTERS[18] == 'S' && LETTERS[19] == 'T' && LETTERS[20] == 'U' && LETTERS[21] == 'V' && LETTERS[22] == 'W';
    assert LETTERS[23] == 'X' && LETTERS[24] == 'Y' && LETTERS[25] == 'Z';
  }

  lemma LastLetters(v: nat)
    requires 26 <= v < 32
    ensures LETTERS[v] == '2' + (v - 26) as char
  {
    assert LETTERS[26] == '2' && LETTERS[27] == '3' && LETTERS[28] == '4' && LETTERS[29] == '5' && LETTERS[30] == '6';
    assert LETTERS[31] == '7';
  }

  function IndexOfLetter(c: char): Option<nat> {
    if 'A' <= c <= 'Z' then Some((c - 'A') as nat)
    else if '2' <= c <= '7' then Some((c - '2') as nat + 26)
    else None
  }

  function Lettered(values: seq<nat>): (s: string)
    requires Fit(values, 5)
    ensures |s| == |values|
    decreases |values|
  {
    if values == [] then ""
    else
      assert values[|values| - 1] < Pow2(5) == 32;
      Lettered(values[..|values| - 1]) + [Letter(values[|values| - 1])]
  }

  function AsValues(bytes: Bytes): (v: seq<nat>)
    ensures |v| == |bytes| && Fit(v, 8)
  {
    assert Pow2(8) == 256;
    bytes
  }

  function AsBytes(values: seq<nat>): (b: Bytes)
    requires Fit(values, 8)
    ensures |b| == |values| && AsValues(b) == values
  {
    assert Pow2(8) == 256;
    values
  }

  function Encode(bytes: Bytes): string {
    GroupedFits(Spread(AsValues(bytes), 8), 5);
    Lettered(Grouped(Spread(AsValues(bytes), 8), 5))
  }

  function StripPadding(s: string): string
    decreases |s|
  {
    if s != "" && s[|s| - 1] == '=' then StripPadding(s[..|s| - 1]) else s
  }

  /** The values of the letters; other characters are passed over. */
  function LetterValues(s: string): (v: seq<nat>)
    ensures Fit(v, 5)
    decreases |s|
  {
    assert Pow2(5) == 32;
    if s == "" then []
    else
      var front := LetterValues(s[..|s| - 1]);
      match IndexOfLetter(s[|s| - 1])
      case None => front
      case Some(v) => front + [v]
  }

  function Decode(s: string): Bytes {
    var bits := Spread(LetterValues(StripPadding(RangeText.Upper(s))), 5);
    GroupedFits(bits, 8);
    AsBytes(Grouped(bits, 8))
  }

  lemma LetterBack(v: nat)
    requires v < 32
    ensures IndexOfLetter(Letter(v)) == Some(v) && RangeText.UpperChar(Letter(v)) == Letter(v) && Letter(v) != '='
  {
  }

  lemma {:induction false} LetterValuesBack(values: seq<nat>)
    requires Fit(values, 5)
    ensures LetterValues(Lettered(values)) == values
    decreases |values|
  {
    if values != [] {
      var front, last := values[..|values| - 1], values[|values| - 1];
      LetterFits(values);
      LetterValuesBack(front);
      LetterValuesAppend(Lettered(front), last);
      assert values == front + [last];
    }
  }

  /** A text of letters, from its last letter on. */
  lemma LetterFits(values: seq<nat>)
    requires Fit(values, 5) && values != []
    ensures var front, last := values[..|values| - 1], values[|values| - 1];
            last < 32 && Fit(front, 5) && Lettered(values) == Lettered(front) + [Letter(last)]
  {
    assert Pow2(5) == 32;
  }

  lemma LetteredAppend(front: seq<nat>, last: nat)
    requires Fit(front, 5) && last < 32
    ensures Fit(front + [last], 5) && Lettered(front + [last]) == Lettered(front) + [Letter(last)]
  {
    assert Pow2(5) == 32;
    assert (front + [last])[..|front|] == front;
  }

  lemma LetterValuesAppend(s: string, v: nat)
    requires v < 32
    ensures LetterValues(s + [Letter(v)]) == LetterValues(s) + [v]
  {
    LetterBack(v);
    assert (s + [Letter(v)])[..|s|] == s;
  }

  /** One turn of a loop over groups: `done` are the values so far, `whole` all of them. */
  lemma GroupTurn(done: seq<nat>, bits: seq<Bit>, i: nat, width: nat, whole: seq<nat>)
    requires (width == 5 || width == 8) && i + width <= |bits| && done + Grouped(bits[i..], width) == whole
    ensures done + [Value(bits[i..i + width])] + Grouped(bits[i + width..], width) == whole
    ensures Value(bits[i..i + width]) < if width == 5 then 32 else 256
  {
    var v, rest := Value(bits[i..i + width]), Grouped(bits[i + width..], width);
    assert bits[i..][width..] == bits[i + width..] && bits[i..][..width] == bits[i..i + width];
    BitsOfValue(bits[i..i + width]);
    assert Pow2(5) == 32 && Pow2(8) == 256;
    assert done + ([v] + rest) == done + [v] + rest;
  }

  lemma {:induction false} LetteredIsPlain(values: seq<nat>)
    requires Fit(values, 5)
    ensures RangeText.Upper(Lettered(values)) == Lettered(values) == StripPadding(Lettered(values))
    decreases |values|
  {
    if values != [] {
      var front, last := values[..|values| - 1], values[|values| - 1];
      assert last < Pow2(5) == 32;
      LetterBack(last);
      LetteredIsPlain(front);
      assert Lettered(values)[..|values| - 1] == Lettered(front);
    }
  }

  lemma LettersBack(bytes: Bytes)
    ensures LetterValues(StripPadding(RangeText.Upper(Encode(bytes)))) == Grouped(Spread(AsValues(bytes), 8), 5)
  {
    var values := Grouped(Spread(AsValues(bytes), 8), 5);
    GroupedFits(Spread(AsValues(bytes), 8), 5);
    LetteredIsPlain(values);
    LetterValuesBack(values);
  }

  /** Bits that went through whole letters give the groups of eight that lie wholly in those. */
  lemma RegroupedBits(bits: seq<Bit>)
    ensures Groups(Whole(|bits|, 5), 8) <= |Grouped(bits, 8)|
    ensures Grouped(Spread(Grouped(bits, 5), 5), 8) == Grouped(bits, 8)[..Groups(Whole(|bits|, 5), 8)]
  {
    SpreadOfGrouped(bits, 5);
    GroupedOfFront(bits, 8, Whole(|bits|, 5));
  }

  lemma WholeBytes(n: nat)
    ensures Groups(Whole(8 * n, 5), 8) == 5 * (8 * n / 5) / 8
  {
    GroupsDivide(8 * n);
    GroupsDivide(Whole(8 * n, 5));
  }

  lemma BytesBack(bytes: Bytes)
    ensures var n := 5 * (8 * |bytes| / 5) / 8;
            n <= |bytes| && Grouped(Spread(Grouped(Spread(AsValues(bytes), 8), 5), 5), 8) == AsValues(bytes)[..n]
  {
    RegroupedBits(Spread(AsValues(bytes), 8));
    GroupedOfSpread(AsValues(bytes), 8);
    WholeBytes(|bytes|);
  }

  lemma DecodedValues(s: string)
    ensures AsValues(Decode(s)) == Grouped(Spread(LetterValues(StripPadding(RangeText.Upper(s))), 5), 8)
  {
  }

  /** Decoding a secret gives the bytes whose bits fill whole letters. */
  lemma DecodeOfEncode(bytes: Bytes)
    ensures 5 * (8 * |bytes| / 5) / 8 <= |bytes|
    ensures Decode(Encode(bytes)) == bytes[..5 * (8 * |bytes| / 5) / 8]
  {
    var secret := Encode(bytes);
    LettersBack(bytes);
    DecodedValues(secret);
    BytesBack(bytes);
  }

  /** A secret survives exactly when its length is a multiple of five; otherwise its last byte is lost. */
  lemma SecretSurvivesExactly(bytes: Bytes)
    ensures Decode(Encode(bytes)) == bytes <==> |bytes| % 5 == 0
    ensures |bytes| % 5 != 0 ==> Decode(Encode(bytes)) == bytes[..|bytes| - 1]
  {
    DecodeOfEncode(bytes);
    BitsInWholeLetters(|bytes|);
  }

  lemma BitsInWholeLetters(n: nat)
    ensures 5 * (8 * n / 5) / 8 == if n % 5 == 0 then n else n - 1
  {
    var k, r := n / 5, n % 5;
    assert n == 5 * k + r;
    assert 8 * n / 5 == 8 * k + 8 * r / 5;
  }

  // -------- codes --------

  /** The 31-bit number at the offset that the digest's last four bits name. */
  function Truncated(digest: Bytes): (n: nat)
    requires |digest| == 20
    ensures n < 0x8000_0000
  {
    var o := digest[19] % 16;
    digest[o] % 0x80 * 0x1000000 + digest[o + 1] as int * 0x10000 + digest[o + 2] as int * 0x100 + digest[o + 3]
  }

  function PadStart(s: string, width: nat): string
    decreases width - |s|
  {
    if |s| >= width then s else PadStart("0" + s, width)
  }

  function CodeOf(digest: Bytes): string
    requires |digest| == 20
  {
    PadStart(RangeText.Decimal(Truncated(digest) % MODULUS), 6)
  }

  lemma {:induction false} PadKeepsValue(s: string, width: nat)
    requires RangeText.AllDigits(s) && |s| <= width
    ensures |PadStart(s, width)| == width && RangeText.AllDigits(PadStart(s, width))
    ensures RangeText.DigitsValue(PadStart(s, width)) == RangeText.DigitsValue(s)
    decreases width - |s|
  {
    if |s| < width {
      LeadingZero(s);
      PadKeepsValue("0" + s, width);
    }
  }

  lemma {:induction false} LeadingZero(s: string)
    requires RangeText.AllDigits(s)
    ensures RangeText.AllDigits("0" + s) && RangeText.DigitsValue("0" + s) == RangeText.DigitsValue(s)
    decreases |s|
  {
    if s != "" {
      LeadingZero(s[..|s| - 1]);
      assert ("0" + s)[..|s|] == "0" + s[..|s| - 1];
    } else {
      assert ("0" + s)[..0] == "";
    }
  }

  lemma {:induction false} DecimalIsShort(n: nat, width: nat)
    requires width > 0 && n < Pow10(width)
    ensures |RangeText.Decimal(n)| <= width
    decreases width
  {
    if n >= 10 {
      assert Pow10(width) == 10 * Pow10(width - 1);
      assert Pow10(0) == 1;
      DecimalIsShort(n / 10, width - 1);
    }
  }

  function Pow10(w: nat): (p: nat)
    ensures p > 0
  {
    if w == 0 then 1 else 10 * Pow10(w - 1)
  }

  /** Every digest gives six digits, which spell its truncation modulo a million. */
  lemma CodesHaveSixDigits(digest: Bytes)
    requires |digest| == 20
    ensures |CodeOf(digest)| == 6 && RangeText.AllDigits(CodeOf(digest))
    ensures RangeText.DigitsValue(CodeOf(digest)) == Truncated(digest) % MODULUS
  {
    var n := Truncated(digest) % MODULUS;
    assert Pow10(6) == MODULUS;
    DecimalIsShort(n, 6);
    RangeText.DecimalReadsBack(n);
    PadKeepsValue(RangeText.Decimal(n), 6);
  }

  /** The eight bytes of the moving factor, most significant first. */
  function Be64(n: nat): Bytes
    requires n < TWO64
  {
    BigEndian(n, 8)
  }

  function BigEndian(n: nat, size: nat): Bytes {
    if size == 0 then [] else BigEndian(n / 0x100, size - 1) + [n % 0x100]
  }

  /** Its bits are the counter's: the counter reads back from them. */
  lemma CounterReadsBack(n: nat)
    requires n < TWO64
    ensures |Be64(n)| == 8 && Value(Spread(Be64(n), 8)) == n
  {
    assert Pow256(8) == TWO64;
    BigEndianReadsBack(n, 8);
  }

  function Pow256(w: nat): nat {
    if w == 0 then 1 else 0x100 * Pow256(w - 1)
  }

  lemma {:induction false} BigEndianReadsBack(n: nat, size: nat)
    requires n < Pow256(size)
    ensures |BigEndian(n, size)| == size && Value(Spread(BigEndian(n, size), 8)) == n
    decreases size
  {
    if size > 0 {
      BigEndianReadsBack(n / 0x100, size - 1);
      var front := BigEndian(n / 0x100, size - 1);
      SpreadAppend(front, n % 0x100, 8);
      ByteAppend(Spread(front, 8), n % 0x100);
    }
  }

  lemma Twice(x: nat, y: nat)
    ensures x * (2 * y) == 2 * (x * y)
  {
  }

  lemma {:induction false} ValueOfConcat(a: seq<Bit>, b: seq<Bit>)
    ensures Value(a + b) == Value(a) * Pow2(|b|) + Value(b)
    decreases |b|
  {
    if b == [] {
      assert a + b == a;
    } else {
      var front, last := b[..|b| - 1], b[|b| - 1];
      assert (a + b)[..|a + b| - 1] == a + front;
      ValueOfConcat(a, front);
      Twice(Value(a), Pow2(|front|));
    }
  }

  lemma ByteAppend(bits: seq<Bit>, b: nat)
    requires b < 0x100
    ensures Value(bits + Bits(b, 8)) == Value(bits) * 0x100 + b
  {
    assert Pow2(8) == 0x100;
    ValueOfConcat(bits, Bits(b, 8));
    ValueOfBits(b, 8);
  }

  /**
   * The truncation is what the standard describes on bits: of the four bytes
   * at the offset, all bits but the first, read as a number.
   */
  lemma TruncationIsThirtyOneBits(digest: Bytes)
    requires |digest| == 20
    ensures var o := digest[19] % 16;
            o + 4 <= |digest| && Truncated(digest) == Value(Spread(digest[o..o + 4], 8)[1..])
  {
    var o := digest[19] % 16;
    FourBytesOfBits(digest[o], digest[o + 1], digest[o + 2], digest[o + 3]);
    assert digest[o..o + 4] == [digest[o], digest[o + 1], digest[o + 2], digest[o + 3]];
  }

  lemma FourBytesOfBits(b0: Byte, b1: Byte, b2: Byte, b3: Byte)
    ensures Value(Spread([b0, b1, b2, b3], 8)[1..]) ==
            b0 % 0x80 * 0x1000000 + b1 as int * 0x10000 + b2 as int * 0x100 + b3
  {
    var top := Bits(b0, 8)[1..];
    SpreadOfFour(b0, b1, b2, b3);
    LowSevenBits(b0);
    ByteAppend(top, b1);
    ByteAppend(top + Bits(b1, 8), b2);
    ByteAppend(top + Bits(b1, 8) + Bits(b2, 8), b3);
  }

  lemma SpreadOfFour(b0: Byte, b1: Byte, b2: Byte, b3: Byte)
    ensures Spread([b0, b1, b2, b3], 8)[1..] == Bits(b0, 8)[1..] + Bits(b1, 8) + Bits(b2, 8) + Bits(b3, 8)
  {
    SpreadFirst([b0, b1, b2, b3], [b1, b2, b3]);
    SpreadFirst([b1, b2, b3], [b2, b3]);
    SpreadFirst([b2, b3], [b3]);
    SpreadFirst([b3], []);
    DropOne(Bits(b0, 8), Bits(b1, 8), Bits(b2, 8), Bits(b3, 8));
  }

  lemma SpreadFirst(bytes: Bytes, rest: Bytes)
    requires bytes != [] && bytes[1..] == rest
    ensures Spread(bytes, 8) == Bits(bytes[0], 8) + Spread(rest, 8)
  {
  }

  lemma DropOne(a: seq<Bit>, b: seq<Bit>, c: seq<Bit>, d: seq<Bit>)
    requires a != []
    ensures (a + (b + (c + (d + []))))[1..] == a[1..] + b + c + d
  {
  }

  lemma LowSevenBits(b: Byte)
    ensures Value(Bits(b, 8)[1..]) == b % 0x80
  {
    assert Pow2(8) == 0x100;
    ValueOfBits(b, 8);
    TopBit(Bits(b, 8));
  }

  lemma TopBit(bits: seq<Bit>)
    requires |bits| == 8
    ensures Value(bits) == bits[0] as int * 0x80 + Value(bits[1..]) && Value(bits[1..]) < 0x80
  {
    var first, rest := [bits[0]], bits[1..];
    assert bits == first + rest && first[..0] == [];
    assert Pow2(7) == 0x80;
    ValueOfConcat(first, rest);
    BitsOfValue(rest);
    assert Value(first) == bits[0];
  }

  /** The digest of a keyed hash has 20 bytes. */
  ghost predicate IsHmac(hmac: (Bytes, Bytes) -> Bytes) {
    forall key: Bytes, message: Bytes :: |hmac(key, message)| == 20
  }

  /** `None` is the exception for a counter that does not fit 64 unsigned bits. */
  function CodeAt(hmac: (Bytes, Bytes) -> Bytes, secret: string, counter: int): Option<string>
    requires IsHmac(hmac)
  {
    if 0 <= counter < TWO64 then Some(CodeOf(hmac(Decode(secret), Be64(counter)))) else None
  }

  /** A generated 20-byte secret is the hash's key, byte for byte. */
  lemma CodesUseTheWholeSecret(hmac: (Bytes, Bytes) -> Bytes, bytes: Bytes, counter: nat)
    requires IsHmac(hmac) && |bytes| % 5 == 0 && counter < TWO64
    ensures CodeAt(hmac, Encode(bytes), counter) == Some(CodeOf(hmac(bytes, Be64(counter))))
  {
    SecretSurvivesExactly(bytes);
  }

  method GenerateSecret(random: Bytes) returns (out: string)
    ensures out == Encode(random)
  {
    var bits := BytesToBits(random);
    out := BitsToLetters(bits);
  }

  method BytesToBits(bytes: Bytes) returns (bits: seq<Bit>)
    ensures bits == Spread(AsValues(bytes), 8)
  {
    bits := [];
    ghost var values := AsValues(bytes);
    for k := 0 to |bytes|
      invariant bits == Spread(values[..k], 8)
    {
      SpreadAppend(values[..k], values[k], 8);
      assert values[..k + 1] == values[..k] + [values[k]];
      bits := bits + Bits(bytes[k], 8);
    }
    assert values[..|bytes|] == values;
  }

  method BitsToLetters(bits: seq<Bit>) returns (out: string)
    ensures Fit(Grouped(bits, 5), 5) && out == Lettered(Grouped(bits, 5))
  {
    GroupedFits(bits, 5);
    ghost var values, whole := [], Grouped(bits, 5);
    out := "";
    var i := 0;
    while i + 5 <= |bits|
      invariant 0 <= i <= |bits|
      invariant Fit(values, 5) && out == Lettered(values)
      invariant values + Grouped(bits[i..], 5) == whole
    {
      var v := Value(bits[i..i + 5]);
      GroupTurn(values, bits, i, 5, whole);
      LetteredAppend(values, v);
      out := out + [Letter(v)];
      values := values + [v];
      i := i + 5;
    }
    assert Grouped(bits[i..], 5) == [];
    assert values == whole;
  }

  lemma {:induction false} SpreadAppend(values: seq<nat>, v: nat, width: nat)
    ensures Spread(values + [v], width) == Spread(values, width) + Bits(v, width)
    decreases |values|
  {
    if values == [] {
      assert values + [v] == [v];
    } else {
      SpreadAppend(values[1..], v, width);
      assert (values + [v])[1..] == values[1..] + [v];
    }
  }

  method LettersToBits(letters: string) returns (bits: seq<Bit>)
    ensures bits == Spread(LetterValues(letters), 5)
  {
    bits := [];
    for k := 0 to |letters|
      invariant bits == Spread(LetterValues(letters[..k]), 5)
    {
      assert letters[..k + 1][..k] == letters[..k];
      var v := IndexOfLetter(letters[k]);
      if v.Some? {
        SpreadAppend(LetterValues(letters[..k]), v.value, 5);
        bits := bits + Bits(v.value, 5);
      }
    }
    assert letters[..|letters|] == letters;
  }

  method BitsToBytes(bits: seq<Bit>) returns (bytes: Bytes)
    ensures AsValues(bytes) == Grouped(bits, 8)
  {
    bytes := [];
    ghost var whole := Grouped(bits, 8);
    var i := 0;
    while i + 8 <= |bits|
      invariant 0 <= i <= |bits|
      invariant AsValues(bytes) + Grouped(bits[i..], 8) == whole
    {
      GroupTurn(AsValues(bytes), bits, i, 8, whole);
      var b: Byte := Value(bits[i..i + 8]);
      bytes := bytes + [b];
      i := i + 8;
    }
    assert Grouped(bits[i..], 8) == [];
  }

  method DecodeSecret(s: string) returns (bytes: Bytes)
    ensures bytes == Decode(s)
  {
    var bits := LettersToBits(StripPadding(RangeText.Upper(s)));
    bytes := BitsToBytes(bits);
  }

  /** The code of each step. */
  function Codes(hmac: (Bytes, Bytes) -> Bytes, secret: string): int -> Option<string>
    requires IsHmac(hmac)
  {
    (step: int) => CodeAt(hmac, secret, step)
  }

  /** The codes of the steps from this drift to 1, tried in order; `None` once a step has no code. */
  function TryFrom(code: int -> Option<string>, token: string, counter: int, drift: int): Option<bool>
    decreases 2 - drift
  {
    if drift > 1 then Some(false)
    else
      match code(counter + drift)
      case None => None
      case Some(expected) => if expected == token then Some(true) else TryFrom(code, token, counter, drift + 1)
  }

  /** What the server says of a code; `None` is an exception. */
  function Accepts(hmac: (Bytes, Bytes) -> Bytes, secret: string, token: string, nowMs: int): Option<bool>
    requires IsHmac(hmac)
  {
    TryFrom(Codes(hmac, secret), token, nowMs / STEP_MS, -1)
  }

  /** Some step next to this one, or this one, has the code. */
  predicate IsAdjacentCode(hmac: (Bytes, Bytes) -> Bytes, secret: string, token: string, nowMs: int)
    requires IsHmac(hmac)
  {
    var code, step := Codes(hmac, secret), nowMs / 30_000;
    code(step - 1) == Some(token) || code(step) == Some(token) || code(step + 1) == Some(token)
  }

  /**
   * Accepts exactly the codes of the step before, this step and the next; in
   * the first step of the epoch, which has none before it, there is an exception.
   */
  lemma AcceptsExactly(hmac: (Bytes, Bytes) -> Bytes, secret: string, token: string, nowMs: int)
    requires IsHmac(hmac)
    ensures Accepts(hmac, secret, token, nowMs) == Some(true) <==>
            nowMs / 30_000 >= 1 && IsAdjacentCode(hmac, secret, token, nowMs)
    ensures nowMs / 30_000 < 1 ==> Accepts(hmac, secret, token, nowMs) == None
    ensures 1 <= nowMs / 30_000 < TWO64 - 1 ==> Accepts(hmac, secret, token, nowMs).Some?
  {
    forall s: int ensures Codes(hmac, secret)(s).Some? <==> 0 <= s < TWO64 {
      CodesOfSteps(hmac, secret, s);
    }
    var step := nowMs / 30_000;
    TryThree(Codes(hmac, secret), token, step);
    assert Accepts(hmac, secret, token, nowMs) == TryFrom(Codes(hmac, secret), token, step, -1);
  }

  lemma TryThree(code: int -> Option<string>, token: string, step: int)
    requires forall s: int :: code(s).Some? <==> 0 <= s < TWO64
    ensures var r := TryFrom(code, token, step, -1);
            && (r == Some(true) <==> step >= 1 && (code(step - 1) == Some(token) || code(step) == Some(token) ||
                                                   code(step + 1) == Some(token)))
            && (step < 1 ==> r == None)
            && (1 <= step < TWO64 - 1 ==> r.Some?)
  {
    var last := TryFrom(code, token, step, 1);
    assert last == match code(step + 1) case None => None case Some(e) => Some(e == token);
    var middle := TryFrom(code, token, step, 0);
    assert middle == match code(step) case None => None case Some(e) => if e == token then Some(true) else last;
  }

  lemma CodesOfSteps(hmac: (Bytes, Bytes) -> Bytes, secret: string, step: int)
    requires IsHmac(hmac)
    ensures Codes(hmac, secret)(step).Some? <==> 0 <= step < TWO64
  {
  }

  method VerifyTotp(hmac: (Bytes, Bytes) -> Bytes, secret: string, token: string, nowMs: int) returns (ok: Option<bool>)
    requires IsHmac(hmac)
    ensures ok == Accepts(hmac, secret, token, nowMs)
    ensures ok == Some(true) <==> nowMs / 30_000 >= 1 && IsAdjacentCode(hmac, secret, token, nowMs)
  {
    AcceptsExactly(hmac, secret, token, nowMs);
    ok := TryDrifts(Codes(hmac, secret), token, nowMs / STEP_MS);
  }

  /** The loop over the three drifts, with the code of each step. */
  method TryDrifts(code: int -> Option<string>, token: string, counter: int) returns (ok: Option<bool>)
    ensures ok == TryFrom(code, token, counter, -1)
  {
    for drift := -1 to 2
      invariant TryFrom(code, token, counter, -1) == TryFrom(code, token, counter, drift)
    {
      var expected := code(counter + drift);
      if expected.None? {
        return None;
      }
      if expected.value == token {
        return Some(true);
      }
    }
    ok := Some(false);
  }
}
