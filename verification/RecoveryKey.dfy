/** Recovery keys: an unbiased draw, the printed form, and the forgiving reading of it. */
module RecoveryKey {
  import opened Common
  import opened RangeText

  const SYMBOLS := "0123456789ABCDEFGHJKMNPQRSTVWXYZ"
  const GROUPS := 5
  const GROUP_LENGTH := 5
  const LIMIT := 224

  /** The digits, and the capital letters without I, L, O and U. */
  predicate IsSymbol(c: char) {
    IsDigit(c) || ('A' <= c <= 'Z' && c != 'I' && c != 'L' && c != 'O' && c != 'U')
  }

  predicate IsPayload(p: string) {
    forall i | 0 <= i < |p| :: IsSymbol(p[i])
  }

  // -------- drawing a key --------

  function SymbolOf(b: Byte): (c: char)
    ensures IsSymbol(c)
  {
    SYMBOLS[b % 32]
  }

  /** The byte values that the loop lets through and that give this symbol. */
  function Givers(c: char): set<int> {
    set b: int | 0 <= b < LIMIT && SYMBOLS[b % 32] == c
  }

  /** Where a symbol stands in the alphabet. */
  function Place(c: char): nat
    requires IsSymbol(c)
  {
    if IsDigit(c) then (c - '0') as nat
    else if c < 'I' then (c - 'A') as nat + 10
    else if c < 'L' then (c - 'A') as nat + 9
    else if c < 'O' then (c - 'A') as nat + 8
    else if c < 'U' then (c - 'A') as nat + 7
    else (c - 'A') as nat + 6
  }

  lemma PlaceOfDigit(v: nat)
    requires v < 10
    ensures Place(SYMBOLS[v]) == v
  {
    assert SYMBOLS[0] == '0' && SYMBOLS[1] == '1' && SYMBOLS[2] == '2' && SYMBOLS[3] == '3' && SYMBOLS[4] == '4';
    assert SYMBOLS[5] == '5' && SYMBOLS[6] == '6' && SYMBOLS[7] == '7' && SYMBOLS[8] == '8' && SYMBOLS[9] == '9';
  }

  lemma PlaceOfEarlyLetter(v: nat)
    requires 10 <= v < 18
    ensures Place(SYMBOLS[v]) == v
  {
    assert SYMBOLS[10] == 'A' && SYMBOLS[11] == 'B' && SYMBOLS[12] == 'C' && SYMBOLS[13] == 'D';
    assert SYMBOLS[14] == 'E' && SYMBOLS[15] == 'F' && SYMBOLS[16] == 'G' && SYMBOLS[17] == 'H';
  }

  lemma PlaceOfLaterLetter(v: nat)
    requires 18 <= v < 32
    ensures Place(SYMBOLS[v]) == v
  {
    assert SYMBOLS[18] == 'J' && SYMBOLS[19] == 'K' && SYMBOLS[20] == 'M' && SYMBOLS[21] == 'N' && SYMBOLS[22] == 'P';
    assert SYMBOLS[23] == 'Q' && SYMBOLS[24] == 'R' && SYMBOLS[25] == 'S' && SYMBOLS[26] == 'T' && SYMBOLS[27] == 'V';
    assert SYMBOLS[28] == 'W' && SYMBOLS[29] == 'X' && SYMBOLS[30] == 'Y' && SYMBOLS[31] == 'Z';
  }

  lemma PlacesFit(c: char)
    requires IsSymbol(c)
    ensures Place(c) < 32 && forall d | IsSymbol(d) && Place(d) == Place(c) :: d == c
  {
  }

  lemma EachSymbolHasItsPlace(c: char, v: nat)
    requires IsSymbol(c) && v < 32
    ensures SYMBOLS[v] == c <==> v == Place(c)
  {
    if v < 10 {
      PlaceOfDigit(v);
    } else if v < 18 {
      PlaceOfEarlyLetter(v);
    } else {
      PlaceOfLaterLetter(v);
    }
    PlacesFit(c);
  }

  /** No symbol is favoured: of the bytes let through, exactly seven give each. */
  lemma EachSymbolHasSevenBytes(c: char)
    requires IsSymbol(c)
    ensures |Givers(c)| == 7
  {
    PlacesFit(c);
    var v := Place(c);
    forall b: int | 0 <= b < LIMIT ensures SYMBOLS[b % 32] == c <==> b % 32 == v {
      EachSymbolHasItsPlace(c, b % 32);
    }
    SevenBytes(v);
    assert Givers(c) == set b: int | 0 <= b < LIMIT && b % 32 == v;
  }

  lemma SevenBytes(v: nat)
    requires v < 32
    ensures |set b: int | 0 <= b < LIMIT && b % 32 == v| == 7
  {
    var all := set b: int | 0 <= b < LIMIT && b % 32 == v;
    var seven := {v as int, v + 32, v + 64, v + 96, v + 128, v + 160, v + 192};
    assert |seven| == 7;
    forall b: int ensures b in all <==> b in seven {
      if b in all {
        assert b == b / 32 * 32 + v && 0 <= b / 32 < 7;
      }
    }
    assert all == seven;
  }

  /** The symbols of the random bytes that the loop lets through. */
  function Drawn(random: Bytes): (s: string)
    ensures IsPayload(s)
    decreases |random|
  {
    if random == [] then ""
    else (if random[0] >= LIMIT then "" else [SymbolOf(random[0])]) + Drawn(random[1..])
  }

  /** `groups.join("-")`, in groups of five. */
  function Printed(payload: string): string
    decreases |payload|
  {
    if |payload| <= GROUP_LENGTH then payload
    else payload[..GROUP_LENGTH] + "-" + Printed(payload[GROUP_LENGTH..])
  }

  /** One draw: bytes are skipped until one is below the limit; `None` when the bytes run out. */
  method DrawSymbol(random: Bytes, at: nat) returns (symbol: Option<char>, next: nat)
    requires at <= |random|
    ensures at <= next <= |random|
    ensures symbol.None? ==> Drawn(random[at..]) == ""
    ensures symbol.Some? ==>
              at < next && IsSymbol(symbol.value) && Drawn(random[at..]) == [symbol.value] + Drawn(random[next..])
  {
    next := at;
    while next < |random|
      invariant at <= next <= |random|
      invariant Drawn(random[at..]) == Drawn(random[next..])
    {
      var b := random[next];
      assert random[next..][1..] == random[next + 1..];
      next := next + 1;
      if b < LIMIT {
        return Some(SymbolOf(b)), next;
      }
    }
    symbol := None;
  }

  /** One group of symbols. */
  method DrawGroup(random: Bytes, at: nat) returns (group: string, next: nat)
    requires at <= |random|
    ensures at <= next <= |random|
    ensures IsPayload(group) && |group| <= GROUP_LENGTH && Drawn(random[at..]) == group + Drawn(random[next..])
    ensures |group| < GROUP_LENGTH ==> Drawn(random[next..]) == ""
  {
    group, next := "", at;
    while |group| < GROUP_LENGTH
      invariant at <= next <= |random|
      invariant IsPayload(group) && |group| <= GROUP_LENGTH && Drawn(random[at..]) == group + Drawn(random[next..])
      decreases |random| - next
    {
      var before := next;
      var symbol;
      symbol, next := DrawSymbol(random, before);
      if symbol.None? {
        next := before;
        return;
      }
      assert group + ([symbol.value] + Drawn(random[next..])) == group + [symbol.value] + Drawn(random[next..]);
      group := group + [symbol.value];
    }
  }

  /**
   * A key is the printed form of the first 25 symbols drawn; `None` when the
   * random bytes at hand hold fewer, where the source goes on drawing.
   */
  method GenerateRecoveryKey(random: Bytes) returns (key: Option<string>)
    ensures key.Some? <==> |Drawn(random)| >= GROUPS * GROUP_LENGTH
    ensures key.Some? ==> key.value == "VK-" + Printed(Drawn(random)[..GROUPS * GROUP_LENGTH])
  {
    var payload, text, at := "", "", 0;
    ghost var whole := Drawn(random);
    assert random[0..] == random;
    for g := 0 to GROUPS
      invariant at <= |random|
      invariant |payload| == 5 * g && whole == payload + Drawn(random[at..])
      invariant text == Printed(payload)
    {
      var group, next := DrawGroup(random, at);
      DrawnFurther(payload, group, Drawn(random[next..]));
      if |group| < GROUP_LENGTH {
        return None;
      }
      PrintedAppend(payload, g, group);
      text := if g == 0 then group else text + "-" + group;
      payload, at := payload + group, next;
    }
    FirstOf(payload, Drawn(random[at..]));
    key := Some("VK-" + text);
  }

  lemma FirstOf(front: string, rest: string)
    ensures (front + rest)[..|front|] == front
  {
  }

  lemma DrawnFurther(payload: string, group: string, rest: string)
    ensures payload + (group + rest) == payload + group + rest
  {
  }

  lemma {:induction false} PrintedAppend(payload: string, groups: nat, group: string)
    requires |payload| == 5 * groups && |group| == GROUP_LENGTH
    ensures Printed(payload + group) == if payload == "" then group else Printed(payload) + "-" + group
    decreases |payload|
  {
    if payload == "" {
      assert payload + group == group;
    } else if |payload| == GROUP_LENGTH {
      assert (payload + group)[..GROUP_LENGTH] == payload && (payload + group)[GROUP_LENGTH..] == group;
    } else {
      var first, rest := payload[..GROUP_LENGTH], payload[GROUP_LENGTH..];
      PrintedAppend(rest, groups - 1, group);
      assert (payload + group)[..GROUP_LENGTH] == first && (payload + group)[GROUP_LENGTH..] == rest + group;
      assert first + "-" + (Printed(rest) + "-" + group) == first + "-" + Printed(rest) + "-" + group;
    }
  }

  // -------- reading a key --------

  predicate IsAlnum(c: char) {
    IsDigit(c) || 'A' <= c <= 'Z'
  }

  /** `.toUpperCase().replace(/[^0-9A-Z]/g, "")`. */
  function Alnum(s: string): string
    decreases |s|
  {
    if s == "" then ""
    else (if IsAlnum(UpperChar(s[0])) then [UpperChar(s[0])] else "") + Alnum(s[1..])
  }

  predicate HasMark(a: string) {
    |a| >= 2 && a[0] == 'V' && a[1] == 'K'
  }

  function Unmarked(a: string): string {
    if HasMark(a) then a[2..] else a
  }

  /** `.replace(/[IL]/g, "1").replace(/O/g, "0")`, one character at a time. */
  function Clear(c: char): char {
    if c == 'I' || c == 'L' then '1' else if c == 'O' then '0' else c
  }

  function Cleared(a: string): (r: string)
    ensures |r| == |a|
  {
    seq(|a|, i requires 0 <= i < |a| => Clear(a[i]))
  }

  function Normalize(s: string): string {
    Cleared(Unmarked(Alnum(s)))
  }

  /** Whether a reader may write `c` for a symbol: in either case, and I or L for 1, O for 0. */
  predicate Writes(c: char, symbol: char) {
    || UpperChar(c) == symbol
    || (symbol == '1' && (UpperChar(c) == 'I' || UpperChar(c) == 'L'))
    || (symbol == '0' && UpperChar(c) == 'O')
  }

  predicate IsSeparator(c: char) {
    !IsAlnum(UpperChar(c))
  }

  /** `s` is `text` with separators put in anywhere, and each symbol in one of its writings. */
  predicate Spells(s: string, text: string)
    decreases |s|
  {
    if s == "" then text == ""
    else if IsSeparator(s[0]) then Spells(s[1..], text)
    else text != "" && Writes(s[0], text[0]) && Spells(s[1..], text[1..])
  }

  /** The two letters of the mark have no other writing than their own. */
  lemma {:induction false} SpellingClears(s: string, text: string)
    requires IsPayload(text)
    ensures Spells(s, text) <==> Cleared(Alnum(s)) == text
    decreases |s|
  {
    if s != "" {
      if IsSeparator(s[0]) {
        SpellingClears(s[1..], text);
      } else {
        var c, rest := UpperChar(s[0]), Alnum(s[1..]);
        assert Cleared(Alnum(s)) == [Clear(c)] + Cleared(rest) by {
          assert Alnum(s) == [c] + rest;
        }
        if text != "" {
          WritingClears(s[0], text[0]);
          SpellingClears(s[1..], text[1..]);
          assert text == [text[0]] + text[1..];
        }
      }
    }
  }

  lemma WritingClears(c: char, symbol: char)
    requires IsSymbol(symbol) && !IsSeparator(c)
    ensures Writes(c, symbol) <==> Clear(UpperChar(c)) == symbol
  {
  }

  lemma ClearedMark(a: string)
    ensures HasMark(Cleared(a)) <==> HasMark(a)
    ensures Cleared(Unmarked(a)) == Unmarked(Cleared(a))
  {
  }

  /**
   * Reading is exact: a text normalises to a payload if and only if it spells
   * the payload behind a VK mark, or spells it alone and it begins with no mark.
   */
  lemma NormalizesExactly(s: string, payload: string)
    requires IsPayload(payload)
    ensures Normalize(s) == payload <==>
            Spells(s, "VK" + payload) || (Spells(s, payload) && !HasMark(payload))
  {
    var a := Cleared(Alnum(s));
    ClearedMark(Alnum(s));
    SpellingClears(s, "VK" + payload);
    SpellingClears(s, payload);
    if HasMark(a) {
      assert a == "VK" + a[2..];
    }
  }

  /** Any rewriting of the printed form reads as the payload: other case, separators or misreadings change nothing. */
  lemma EveryRewritingReads(s: string, payload: string)
    requires IsPayload(payload) && Spells(s, "VK" + payload)
    ensures Normalize(s) == payload
  {
    NormalizesExactly(s, payload);
  }

  lemma {:induction false} PrintedSpells(payload: string)
    requires IsPayload(payload)
    ensures Spells(Printed(payload), payload)
    decreases |payload|
  {
    if |payload| <= GROUP_LENGTH {
      SymbolsSpellThemselves(payload, "", "");
      assert payload + "" == payload;
    } else {
      var first, rest := payload[..GROUP_LENGTH], payload[GROUP_LENGTH..];
      PrintedSpells(rest);
      var tail := "-" + Printed(rest);
      assert tail[1..] == Printed(rest);
      assert Spells(tail, rest);
      SymbolsSpellThemselves(first, tail, rest);
      assert Printed(payload) == first + tail && payload == first + rest;
    }
  }

  lemma {:induction false} SymbolsSpellThemselves(front: string, s: string, text: string)
    requires IsPayload(front) && Spells(s, text)
    ensures Spells(front + s, front + text)
    decreases |front|
  {
    if front == "" {
      assert front + s == s && front + text == text;
    } else {
      assert IsSymbol(front[0]);
      SymbolsSpellThemselves(front[1..], s, text);
      assert (front + s)[1..] == front[1..] + s && (front + text)[1..] == front[1..] + text;
    }
  }

  /** The printed key reads back, for every payload. */
  lemma PrintedKeyReadsBack(payload: string)
    requires IsPayload(payload)
    ensures Normalize("VK-" + Printed(payload)) == payload
  {
    PrintedSpells(payload);
    var s := "-" + Printed(payload);
    assert s[1..] == Printed(payload);
    assert Spells(s, payload);
    SymbolsSpellThemselves("VK", s, payload);
    assert "VK" + s == "VK-" + Printed(payload);
    EveryRewritingReads("VK-" + Printed(payload), payload);
  }

  /** Without the mark it reads back exactly when the payload does not itself begin with VK. */
  lemma MarklessKeyReadsBackExactly(payload: string)
    requires IsPayload(payload)
    ensures Normalize(Printed(payload)) == payload <==> !HasMark(payload)
    ensures Normalize(payload) == payload <==> !HasMark(payload)
  {
    PrintedSpells(payload);
    SymbolsSpellThemselves(payload, "", "");
    assert payload + "" == payload;
    ReadsAs(Printed(payload), payload);
    ReadsAs(payload, payload);
  }

  /** A text that spells a payload is not a marked spelling of it as well. */
  lemma ReadsAs(s: string, payload: string)
    requires IsPayload(payload) && Spells(s, payload)
    ensures Normalize(s) == payload <==> !HasMark(payload)
  {
    NormalizesExactly(s, payload);
    SpellingClears(s, "VK" + payload);
    SpellingClears(s, payload);
    assert |"VK" + payload| != |payload|;
  }
}
