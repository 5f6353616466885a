/**
 * The text decoder of the platform: it drops a byte order mark and replaces
 * ill-formed input by U+FFFD, one replacement per maximal subpart.
 * A text is represented by the UTF-8 bytes of its scalar values.
 */
module Utf8 {
  import opened Common

  const BOM: Bytes := [0xEF, 0xBB, 0xBF]
  const REPLACEMENT: Bytes := [0xEF, 0xBF, 0xBD]

  /** How many bytes a sequence with this lead byte needs; 0 if none starts with it. */
  function Needed(lead: Byte): nat {
    if lead < 0x80 then 1
    else if lead < 0xC2 then 0
    else if lead < 0xE0 then 2
    else if lead < 0xF0 then 3
    else if lead < 0xF5 then 4
    else 0
  }

  predicate IsTail(b: Byte) {
    0x80 <= b < 0xC0
  }

  /** The second byte excludes overlong forms, surrogates and values past U+10FFFF. */
  predicate IsSecond(lead: Byte, b: Byte) {
    && IsTail(b)
    && (lead == 0xE0 ==> b >= 0xA0)
    && (lead == 0xED ==> b < 0xA0)
    && (lead == 0xF0 ==> b >= 0x90)
    && (lead == 0xF4 ==> b < 0x90)
  }

  /** What the decoder takes off the front: a well-formed sequence, or an ill-formed subpart. */
  datatype Front = Front(good: bool, size: nat)

  function FrontOf(s: Bytes): (f: Front)
    requires s != []
    ensures 1 <= f.size <= |s| && f.size <= 4 && (!f.good ==> f.size <= 3)
  {
    var needed := Needed(s[0]);
    if needed == 0 then Front(false, 1)
    else if needed == 1 then Front(true, 1)
    else if |s| < 2 || !IsSecond(s[0], s[1]) then Front(false, 1)
    else if needed == 2 then Front(true, 2)
    else if |s| < 3 || !IsTail(s[2]) then Front(false, 2)
    else if needed == 3 then Front(true, 3)
    else if |s| < 4 || !IsTail(s[3]) then Front(false, 3)
    else Front(true, 4)
  }

  predicate WellFormed(s: Bytes)
    decreases |s|
  {
    s == [] || (FrontOf(s).good && WellFormed(s[FrontOf(s).size..]))
  }

  /** The text of `s`, with every ill-formed subpart replaced. */
  function Repair(s: Bytes): Bytes
    decreases |s|
  {
    if s == [] then []
    else (if FrontOf(s).good then s[..FrontOf(s).size] else REPLACEMENT) + Repair(s[FrontOf(s).size..])
  }

  predicate StartsWithBom(s: Bytes) {
    BOM <= s
  }

  /** `new TextDecoder().decode(s)`. */
  function DecodeText(s: Bytes): Bytes {
    Repair(if StartsWithBom(s) then s[3..] else s)
  }

  /** A well-formed sequence at the front stays one when more bytes follow. */
  lemma HeadOfConcat(s: Bytes, t: Bytes)
    requires s != [] && FrontOf(s).good
    ensures FrontOf(s + t) == FrontOf(s)
  {
  }

  lemma {:induction false} RepairIsWellFormed(s: Bytes)
    ensures WellFormed(Repair(s))
    decreases |s|
  {
    if s != [] {
      var size := FrontOf(s).size;
      var front := if FrontOf(s).good then s[..size] else REPLACEMENT;
      RepairIsWellFormed(s[size..]);
      assert FrontOf(front) == Front(true, |front|);
      HeadOfConcat(front, Repair(s[size..]));
      assert (front + Repair(s[size..]))[|front|..] == Repair(s[size..]);
    }
  }

  /** Repair leaves a text alone exactly when it is well-formed. */
  lemma {:induction false} RepairFixesExactlyTheBroken(s: Bytes)
    ensures Repair(s) == s <==> WellFormed(s)
    decreases |s|
  {
    if s != [] {
      if Repair(s) == s {
        RepairIsWellFormed(s);
      }
      if WellFormed(s) {
        var size := FrontOf(s).size;
        RepairFixesExactlyTheBroken(s[size..]);
        assert s == s[..size] + s[size..];
      }
    }
  }

  /** Each replacement stands for at least one byte, so a text at most triples. */
  lemma {:induction false} RepairAtMostTriples(s: Bytes)
    ensures |Repair(s)| <= 3 * |s|
    decreases |s|
  {
    if s != [] {
      RepairAtMostTriples(s[FrontOf(s).size..]);
    }
  }

  /** Repair never puts a byte order mark in front of a text. */
  lemma {:induction false} RepairAddsNoBom(t: Bytes)
    ensures Repair(t) != BOM + t
    decreases |t|
  {
    if BOM <= t {
      RepairAddsNoBom(t[3..]);
      assert t == BOM + t[3..];
      assert t[..3] == BOM && Repair(t)[3..] == Repair(t[3..]);
      assert (BOM + t)[3..] == t;
    } else if t != [] {
      var front := if FrontOf(t).good then t[..FrontOf(t).size] else REPLACEMENT;
      assert Repair(t)[..|front|] == front;
      if front[0] == 0xEF && |front| == 3 {
        assert front != BOM;
        assert Repair(t)[..3] != (BOM + t)[..3];
      }
    }
  }

  /** The decoder returns exactly the well-formed texts without a byte order mark unchanged. */
  lemma DecodeTextKeepsExactly(s: Bytes)
    ensures DecodeText(s) == s <==> WellFormed(s) && !StartsWithBom(s)
    ensures WellFormed(DecodeText(s))
  {
    if StartsWithBom(s) {
      RepairIsWellFormed(s[3..]);
      RepairAddsNoBom(s[3..]);
      assert s == BOM + s[3..];
    } else {
      RepairFixesExactlyTheBroken(s);
      RepairIsWellFormed(s);
    }
  }
}
