/** What a line of a corpus file, and a place in the list of common passwords, loads into the index. */
module CorpusText {
  import opened RangeText
  import opened BreachRange

  predicate AllSpaces(s: string) {
    forall i | 0 <= i < |s| :: IsSpace(s[i])
  }

  /** The line is forty hexadecimal digits, a colon and decimal digits, with white space around them. */
  predicate HashLine(line: string, before: string, hex: string, digits: string, after: string) {
    && AllSpaces(before) && |hex| == 40 && IsHex(hex) && digits != "" && AllDigits(digits) && AllSpaces(after)
    && line == before + hex + ":" + digits + after
  }

  /** The same hexadecimal digit in upper case. */
  predicate SameDigit(c: char, upper: char) {
    upper == if c == 'a' then 'A' else if c == 'b' then 'B' else if c == 'c' then 'C' else if c == 'd' then 'D'
    else if c == 'e' then 'E' else if c == 'f' then 'F' else c
  }

  lemma {:induction false} TrimStartOfSpaces(before: string, rest: string)
    requires AllSpaces(before) && rest != "" && !IsSpace(rest[0])
    ensures TrimStart(before + rest) == rest
    decreases |before|
  {
    if before == "" {
      assert before + rest == rest;
    } else {
      assert (before + rest)[1..] == before[1..] + rest;
      TrimStartOfSpaces(before[1..], rest);
    }
  }

  lemma {:induction false} TrimEndOfSpaces(rest: string, after: string)
    requires AllSpaces(after) && rest != "" && !IsSpace(rest[|rest| - 1])
    ensures TrimEnd(rest + after) == rest
    decreases |after|
  {
    if after == "" {
      assert rest + after == rest;
    } else {
      var n := |after| - 1;
      assert (rest + after)[..|rest + after| - 1] == rest + after[..n];
      TrimEndOfSpaces(rest, after[..n]);
    }
  }

  lemma {:induction false} TrimStartSplits(s: string) returns (before: string)
    ensures AllSpaces(before) && s == before + TrimStart(s)
    decreases |s|
  {
    before := "";
    if s != "" && IsSpace(s[0]) {
      var rest := TrimStartSplits(s[1..]);
      before := [s[0]] + rest;
    }
  }

  lemma {:induction false} TrimEndSplits(s: string) returns (after: string)
    ensures AllSpaces(after) && s == TrimEnd(s) + after
    decreases |s|
  {
    after := "";
    if s != "" && IsSpace(s[|s| - 1]) {
      var rest := TrimEndSplits(s[..|s| - 1]);
      after := rest + [s[|s| - 1]];
    }
  }

  lemma {:induction false} UpperOfDigits(hex: string)
    requires IsHex(hex)
    ensures |Upper(hex)| == |hex| && forall i | 0 <= i < |hex| :: SameDigit(hex[i], Upper(hex)[i])
    decreases |hex|
  {
    if hex != "" {
      UpperOfDigits(hex[..|hex| - 1]);
    }
  }

  /** Such a line loads its hash in upper case, with its count. */
  lemma HashLineLoads(sha1: string -> string, line: string, before: string, hex: string, digits: string, after: string)
    requires HashLine(line, before, hex, digits, after)
    ensures var entry := CorpusEntry(sha1, line);
            && |entry.hash| == 40 && (forall i | 0 <= i < 40 :: SameDigit(hex[i], entry.hash[i]))
            && entry.count == DigitsValue(digits)
  {
    var core := hex + ":" + digits;
    assert line == before + (core + after);
    assert core[0] == hex[0] && core[|core| - 1] == digits[|digits| - 1];
    TrimStartOfSpaces(before, core + after);
    TrimEndOfSpaces(core, after);
    assert Trim(line) == core;
    assert core[..40] == hex && core[40] == ':' && core[41..] == digits;
    UpperOfDigits(hex);
  }

  /** Any other line is a password that counts once. */
  lemma OtherLineLoads(sha1: string -> string, line: string)
    requires forall before, hex, digits, after :: !HashLine(line, before, hex, digits, after)
    ensures CorpusEntry(sha1, line) == Known(sha1(line), 1)
  {
    var t := Trim(line);
    if |t| > 41 && IsHex(t[..40]) && t[40] == ':' && AllDigits(t[41..]) {
      var before := TrimStartSplits(line);
      var after := TrimEndSplits(TrimStart(line));
      assert t == t[..40] + ":" + t[41..];
      assert HashLine(line, before, t[..40], t[41..], after);
    }
  }

  /** What the lines load, in order; empty lines load nothing. */
  lemma {:induction false} LinesLoadInOrder(sha1: string -> string, lines: seq<string>, i: nat)
    requires i < |lines|
    ensures CorpusEntries(sha1, lines) ==
            CorpusEntries(sha1, lines[..i]) + (if lines[i] == "" then [] else [CorpusEntry(sha1, lines[i])]) +
              CorpusEntries(sha1, lines[i + 1..])
    decreases |lines|
  {
    var n := |lines| - 1;
    if i < n {
      LinesLoadInOrder(sha1, lines[..n], i);
      assert lines[..n][..i] == lines[..i];
      assert lines[i + 1..][..n - i - 1] == lines[..n][i + 1..];
    } else {
      assert lines[i + 1..] == [];
    }
  }

  /** In the list of passwords the last one counts once, and each one once more than the next. */
  lemma RankedCountsDown(sha1: string -> string, passwords: seq<string>, i: nat)
    requires i < |passwords|
    ensures var known := Ranked(sha1, passwords);
            && |known| == |passwords| && known[i].hash == sha1(passwords[i])
            && known[i].count == if i + 1 == |passwords| then 1 else known[i + 1].count + 1
  {
  }
}
