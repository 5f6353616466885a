/** The text decoder judged by scalar values: which bytes are a text, and what replaces those that are not. */
module Scalars {
  import opened Common
  import opened Utf8

  /** A code point that is no surrogate. */
  predicate IsScalar(c: int) {
    0 <= c < 0xD800 || 0xE000 <= c < 0x110000
  }

  /** UTF-8, section 3 of RFC 3629. */
  function Encode(c: int): Bytes
    requires IsScalar(c)
  {
    if c < 0x80 then [c]
    else if c < 0x800 then [0xC0 + c / 0x40, 0x80 + c % 0x40]
    else if c < 0x10000 then [0xE0 + c / 0x1000, 0x80 + c / 0x40 % 0x40, 0x80 + c % 0x40]
    else [0xF0 + c / 0x40000, 0x80 + c / 0x1000 % 0x40, 0x80 + c / 0x40 % 0x40, 0x80 + c % 0x40]
  }

  predicate IsText(text: seq<int>) {
    forall i | 0 <= i < |text| :: IsScalar(text[i])
  }

  function EncodeAll(text: seq<int>): Bytes
    requires IsText(text)
    decreases |text|
  {
    if text == [] then [] else Encode(text[0]) + EncodeAll(text[1..])
  }

  /** The encoding of some scalar value begins with these bytes. */
  ghost predicate Starts(s: Bytes) {
    exists c | IsScalar(c) :: s <= Encode(c)
  }

  lemma ScalarIsGood(c: int, rest: Bytes)
    requires IsScalar(c)
    ensures FrontOf(Encode(c) + rest) == Front(true, |Encode(c)|)
  {
    var s := Encode(c) + rest;
    assert forall i | 0 <= i < |Encode(c)| :: s[i] == Encode(c)[i];
    if c >= 0x10000 {
      FourBytes(c);
    } else if c >= 0x800 {
      ThreeBytes(c);
    }
  }

  lemma ThreeBytes(c: int)
    requires IsScalar(c) && 0x800 <= c < 0x10000
    ensures Needed(Encode(c)[0]) == 3 && IsSecond(Encode(c)[0], Encode(c)[1]) && IsTail(Encode(c)[2])
  {
    assert c / 0x1000 == 0 ==> c / 0x40 % 0x40 == c / 0x40 >= 0x20;
    assert c / 0x1000 == 0xD ==> c < 0xE000;
    assert c / 0x1000 == 0xD ==> c / 0x40 % 0x40 == c / 0x40 - 0x340;
  }

  lemma FourBytes(c: int)
    requires IsScalar(c) && c >= 0x10000
    ensures Needed(Encode(c)[0]) == 4 && IsSecond(Encode(c)[0], Encode(c)[1])
    ensures IsTail(Encode(c)[2]) && IsTail(Encode(c)[3])
  {
    assert c / 0x40000 == 0 ==> c / 0x1000 % 0x40 == c / 0x1000 >= 0x10;
    assert c / 0x40000 == 4 ==> c / 0x1000 % 0x40 == c / 0x1000 - 0x100;
  }

  /** A sequence that the decoder takes for good is the encoding of a scalar value. */
  lemma GoodIsScalar(s: Bytes) returns (c: int)
    requires s != [] && FrontOf(s).good
    ensures IsScalar(c) && Encode(c) == s[..FrontOf(s).size]
  {
    var size := FrontOf(s).size;
    if size == 1 {
      c := s[0];
    } else if size == 2 {
      c := JoinThree(0, s[0] - 0xC0, s[1] - 0x80);
    } else if size == 3 {
      c := JoinThree(s[0] - 0xE0, s[1] - 0x80, s[2] - 0x80);
    } else {
      c := JoinFour(s[0] - 0xF0, s[1] - 0x80, s[2] - 0x80, s[3] - 0x80);
    }
  }

  lemma JoinThree(a: int, b: int, d: int) returns (c: int)
    requires 0 <= a < 0x10 && 0 <= b < 0x40 && 0 <= d < 0x40
    ensures c == a * 0x1000 + b * 0x40 + d
    ensures c / 0x1000 == a && c / 0x40 % 0x40 == b && c % 0x40 == d
  {
    c := a * 0x1000 + b * 0x40 + d;
    assert c / 0x40 == a * 0x40 + b;
  }

  lemma JoinFour(a: int, b: int, d: int, e: int) returns (c: int)
    requires 0 <= a < 8 && 0 <= b < 0x40 && 0 <= d < 0x40 && 0 <= e < 0x40
    ensures c == a * 0x40000 + b * 0x1000 + d * 0x40 + e
    ensures c / 0x40000 == a && c / 0x1000 % 0x40 == b && c / 0x40 % 0x40 == d && c % 0x40 == e
  {
    c := a * 0x40000 + b * 0x1000 + d * 0x40 + e;
    assert c / 0x40 == a * 0x1000 + b * 0x40 + d;
    assert c / 0x1000 == a * 0x40 + b;
  }

  lemma {:induction false} WellFormedIsText(s: Bytes) returns (text: seq<int>)
    requires WellFormed(s)
    ensures IsText(text) && EncodeAll(text) == s
    decreases |s|
  {
    if s == [] {
      text := [];
    } else {
      var size := FrontOf(s).size;
      var c := GoodIsScalar(s);
      var rest := WellFormedIsText(s[size..]);
      text := [c] + rest;
      assert text[1..] == rest && s == s[..size] + s[size..];
    }
  }

  lemma {:induction false} TextIsWellFormed(text: seq<int>)
    requires IsText(text)
    ensures WellFormed(EncodeAll(text))
    decreases |text|
  {
    if text != [] {
      TextIsWellFormed(text[1..]);
      ScalarIsGood(text[0], EncodeAll(text[1..]));
      assert EncodeAll(text)[|Encode(text[0])|..] == EncodeAll(text[1..]);
    }
  }

  /** Well-formed bytes are the encodings of sequences of scalar values, and nothing else. */
  lemma WellFormedExactly(s: Bytes)
    ensures WellFormed(s) <==> exists text :: IsText(text) && EncodeAll(text) == s
  {
    if WellFormed(s) {
      var text := WellFormedIsText(s);
    }
    if text :| IsText(text) && EncodeAll(text) == s {
      TextIsWellFormed(text);
    }
  }

  /** What a lead byte, and a second one, say of every scalar value that begins with them. */
  lemma PrefixOfScalar(s: Bytes)
    requires s != [] && Starts(s)
    ensures |s| <= Needed(s[0])
    ensures |s| >= 2 ==> IsSecond(s[0], s[1])
    ensures |s| >= 3 ==> IsTail(s[2])
    ensures |s| >= 4 ==> IsTail(s[3])
  {
    var c :| IsScalar(c) && s <= Encode(c);
    ScalarIsGood(c, []);
    assert Encode(c) + [] == Encode(c);
  }

  /** A sequence cut short begins a scalar value: its missing bytes can be 80. */
  lemma CutStarts(s: Bytes)
    requires s != [] && !FrontOf(s).good && FrontOf(s).size > 1
    ensures Starts(s[..FrontOf(s).size])
  {
    var size, needed := FrontOf(s).size, Needed(s[0]);
    var whole := if size == 3 then s[..3] + [0x80] else if needed == 3 then s[..2] + [0x80] else s[..2] + [0x80, 0x80];
    assert FrontOf(whole) == Front(true, |whole|);
    var c := GoodIsScalar(whole);
    assert s[..size] <= whole == Encode(c);
  }

  /**
   * What is put in the place of the bytes in front: a scalar value stands for
   * itself; else one U+FFFD stands for the longest piece that begins some
   * scalar value, or for one byte where none does.
   */
  lemma RepairReplaces(s: Bytes) returns (k: nat)
    requires s != []
    ensures forall c | IsScalar(c) && Encode(c) <= s :: Repair(s) == Encode(c) + Repair(s[|Encode(c)|..])
    ensures 1 <= k <= |s|
    ensures (forall c | IsScalar(c) :: !(Encode(c) <= s)) ==>
              && Repair(s) == Encode(0xFFFD) + Repair(s[k..])
              && (k > 1 ==> Starts(s[..k])) && (k < |s| ==> !Starts(s[..k + 1]))
  {
    k := FrontOf(s).size;
    forall c | IsScalar(c) && Encode(c) <= s ensures Repair(s) == Encode(c) + Repair(s[|Encode(c)|..]) {
      ScalarIsGood(c, s[|Encode(c)|..]);
      assert s == Encode(c) + s[|Encode(c)|..];
    }
    if FrontOf(s).good {
      var c := GoodIsScalar(s);
      assert Encode(c) <= s;
    } else {
      if k > 1 {
        CutStarts(s);
      }
      if k < |s| && Starts(s[..k + 1]) {
        PrefixOfScalar(s[..k + 1]);
        assert false;
      }
    }
  }

  /** The decoder drops one U+FEFF in front, and only there. */
  lemma MarkIsDropped(s: Bytes)
    ensures DecodeText(s) == if Encode(0xFEFF) <= s then Repair(s[3..]) else Repair(s)
  {
    assert Encode(0xFEFF) == BOM;
  }
}
