/** The string operations behind the `SUFFIX:COUNT` text, on ASCII. */
module RangeText {
  import opened Common

  // -------- white space and case --------

  predicate IsSpace(c: char) {
    c == ' ' || '\t' <= c <= '\r'
  }

  function TrimStart(s: string): (r: string)
    ensures |r| <= |s|
    decreases |s|
  {
    if s != "" && IsSpace(s[0]) then TrimStart(s[1..]) else s
  }

  function TrimEnd(s: string): (r: string)
    ensures |r| <= |s|
    decreases |s|
  {
    if s != "" && IsSpace(s[|s| - 1]) then TrimEnd(s[..|s| - 1]) else s
  }

  function Trim(s: string): string {
    TrimEnd(TrimStart(s))
  }

  function UpperChar(c: char): char {
    if 'a' <= c <= 'z' then c - 'a' + 'A' else c
  }

  function Upper(s: string): (r: string)
    ensures |r| == |s|
    decreases |s|
  {
    if s == "" then "" else Upper(s[..|s| - 1]) + [UpperChar(s[|s| - 1])]
  }

  lemma {:induction false} UpperKeeps(s: string)
    requires forall i | 0 <= i < |s| :: UpperChar(s[i]) == s[i]
    ensures Upper(s) == s
    decreases |s|
  {
    if s != "" {
      UpperKeeps(s[..|s| - 1]);
    }
  }

  lemma {:induction false} TrimEndKeepsFront(s: string, c: char, t: string)
    requires !IsSpace(c)
    ensures TrimEnd(s + [c] + t) == s + [c] + TrimEnd(t)
    decreases |t|
  {
    var whole := s + [c] + t;
    if t != "" && IsSpace(t[|t| - 1]) {
      TrimEndKeepsFront(s, c, t[..|t| - 1]);
      assert whole[..|whole| - 1] == s + [c] + t[..|t| - 1];
    }
  }

  lemma {:induction false} TrimStartKeepsBack(s: string, c: char, t: string)
    requires !IsSpace(c)
    ensures TrimStart(s + [c] + t) == TrimStart(s) + [c] + t
    decreases |s|
  {
    var whole := s + [c] + t;
    if s != "" && IsSpace(s[0]) {
      TrimStartKeepsBack(s[1..], c, t);
      assert whole[1..] == s[1..] + [c] + t;
    }
  }

  lemma {:induction false} TrimStartTwice(s: string)
    ensures TrimStart(TrimStart(s)) == TrimStart(s)
    decreases |s|
  {
    if s != "" && IsSpace(s[0]) {
      TrimStartTwice(s[1..]);
    }
  }

  lemma {:induction false} TrimEndTwice(s: string)
    ensures TrimEnd(TrimEnd(s)) == TrimEnd(s)
    decreases |s|
  {
    if s != "" && IsSpace(s[|s| - 1]) {
      TrimEndTwice(s[..|s| - 1]);
    }
  }

  /** The two ends can be trimmed in either order. */
  lemma {:induction false} TrimsCommute(s: string)
    ensures TrimStart(TrimEnd(s)) == TrimEnd(TrimStart(s))
    decreases |s|
  {
    if s != "" {
      var n := |s| - 1;
      if IsSpace(s[0]) {
        if IsSpace(s[n]) {
          TrimsCommute(s[..n]);
          if n > 0 {
            assert s[1..][..n - 1] == s[..n][1..];
            TrimsCommute(s[1..]);
            TrimsCommute(s[..n][1..]);
            assert TrimEnd(s) == TrimEnd(s[..n]);
            assert TrimStart(s[..n]) == TrimStart(s[..n][1..]);
            assert TrimEnd(s[1..]) == TrimEnd(s[..n][1..]);
          }
        } else {
          assert s == s[..n] + [s[n]] + "";
          TrimStartKeepsBack(s[..n], s[n], "");
          TrimEndKeepsFront(TrimStart(s[..n]), s[n], "");
        }
      } else {
        assert s == "" + [s[0]] + s[1..];
        TrimEndKeepsFront("", s[0], s[1..]);
      }
    }
  }

  lemma TrimOfTrims(s: string)
    ensures Trim(TrimStart(s)) == Trim(s) && Trim(TrimEnd(s)) == Trim(s) && Trim(Trim(s)) == Trim(s)
  {
    TrimStartTwice(s);
    TrimEndTwice(TrimStart(s));
    TrimsCommute(s);
    TrimEndTwice(s);
    TrimsCommute(TrimEnd(s));
    TrimsCommute(Trim(s));
    TrimsCommute(TrimStart(s));
  }

  predicate NoSpaces(s: string) {
    forall i | 0 <= i < |s| :: !IsSpace(s[i])
  }

  lemma TrimKeeps(s: string)
    requires NoSpaces(s)
    ensures Trim(s) == s
  {
  }

  // -------- fields --------

  function IndexOf(s: string, c: char): (i: nat)
    ensures i <= |s| && c !in s[..i] && (i < |s| ==> s[i] == c)
    decreases |s|
  {
    if s == "" || s[0] == c then 0
    else
      assert forall i | 0 <= i < |s| - 1 :: s[1..][i] == s[i + 1];
      1 + IndexOf(s[1..], c)
  }

  /** The index is where the first part ends. */
  lemma IndexIs(s: string, c: char, t: string)
    requires c !in s
    ensures IndexOf(s, c) == |s| && IndexOf(s + [c] + t, c) == |s|
  {
    var whole := s + [c] + t;
    assert whole[|s|] == c && forall k | 0 <= k < |s| :: whole[k] == s[k];
  }

  /** `line.split(":")[0]`. */
  function FirstField(line: string): string {
    line[..IndexOf(line, ':')]
  }

  /** `line.split(":")[1]`. */
  function SecondField(line: string): Option<string> {
    var i := IndexOf(line, ':');
    if i == |line| then None else Some(FirstField(line[i + 1..]))
  }

  lemma FieldsOf(first: string, rest: string)
    requires ':' !in first
    ensures FirstField(first) == first && SecondField(first) == None
    ensures FirstField(first + ":" + rest) == first && SecondField(first + ":" + rest) == Some(FirstField(rest))
  {
    var line := first + ":" + rest;
    IndexIs(first, ':', rest);
    assert line[..|first|] == first && line[|first| + 1..] == rest;
  }

  // -------- numbers --------

  /** What `Number(text)` gives: a natural number, or something that this model does not look into. */
  datatype Num = Natural(n: nat) | Other(text: string)

  predicate IsDigit(c: char) {
    '0' <= c <= '9'
  }

  predicate AllDigits(s: string) {
    forall i | 0 <= i < |s| :: IsDigit(s[i])
  }

  function DigitsValue(s: string): nat
    requires AllDigits(s)
    decreases |s|
  {
    if s == "" then 0 else 10 * DigitsValue(s[..|s| - 1]) + (s[|s| - 1] - '0') as nat
  }

  function ToNumber(s: string): Num {
    var t := Trim(s);
    if AllDigits(t) then Natural(DigitsValue(t)) else Other(t)
  }

  function Decimal(n: nat): (s: string)
    ensures s != "" && AllDigits(s)
    decreases n
  {
    var last := ['0' + (n % 10) as char];
    if n < 10 then last else Decimal(n / 10) + last
  }

  /** A count reads back as it was written. */
  lemma {:induction false} DecimalReadsBack(n: nat)
    ensures DigitsValue(Decimal(n)) == n && ToNumber(Decimal(n)) == Natural(n)
    decreases n
  {
    var s := Decimal(n);
    if n >= 10 {
      DecimalReadsBack(n / 10);
      assert s[..|s| - 1] == Decimal(n / 10);
    } else {
      assert s[..|s| - 1] == "";
    }
    TrimKeeps(s);
  }

  // -------- lines --------

  function Chomp(s: string): string {
    if s != "" && s[|s| - 1] == '\r' then s[..|s| - 1] else s
  }

  /** `text.split(/\r?\n/)`. */
  function SplitLines(text: string): (lines: seq<string>)
    ensures lines != [] && forall i | 0 <= i < |lines| :: '\n' !in lines[i]
    decreases |text|
  {
    var i := IndexOf(text, '\n');
    if i == |text| then [text] else [Chomp(text[..i])] + SplitLines(text[i + 1..])
  }

  /** `lines.join("\n")`. */
  function JoinLines(lines: seq<string>): string
    decreases |lines|
  {
    if lines == [] then ""
    else if |lines| == 1 then lines[0]
    else lines[0] + "\n" + JoinLines(lines[1..])
  }

  predicate IsLine(s: string) {
    '\n' !in s && Chomp(s) == s
  }

  /** Lines come back from a text, as long as none holds a line break of its own. */
  lemma {:induction false} SplitUndoesJoin(lines: seq<string>)
    requires lines != [] && forall i | 0 <= i < |lines| :: IsLine(lines[i])
    ensures SplitLines(JoinLines(lines)) == lines
    decreases |lines|
  {
    var first := lines[0];
    assert IsLine(first);
    if |lines| == 1 {
      IndexIs(first, '\n', "");
    } else {
      var rest := JoinLines(lines[1..]);
      IndexIs(first, '\n', rest);
      SplitUndoesJoin(lines[1..]);
      var text := first + "\n" + rest;
      assert text[..|first|] == first && text[|first| + 1..] == rest;
    }
  }

  // -------- sorting --------

  /** The order of `sort()`, by code units. */
  predicate Precedes(a: string, b: string)
    decreases |a|
  {
    a == "" || (b != "" && (a[0] < b[0] || (a[0] == b[0] && Precedes(a[1..], b[1..]))))
  }

  predicate Sorted(lines: seq<string>) {
    forall i | 0 <= i < |lines| - 1 :: Precedes(lines[i], lines[i + 1])
  }

  function Insert(line: string, lines: seq<string>): seq<string>
    decreases |lines|
  {
    if lines == [] || Precedes(line, lines[0]) then [line] + lines
    else [lines[0]] + Insert(line, lines[1..])
  }

  function Sort(lines: seq<string>): seq<string>
    decreases |lines|
  {
    if lines == [] then [] else Insert(lines[0], Sort(lines[1..]))
  }

  lemma {:induction false} PrecedesIsTotal(a: string, b: string)
    ensures Precedes(a, b) || Precedes(b, a)
    decreases |a|
  {
    if a != "" && b != "" {
      PrecedesIsTotal(a[1..], b[1..]);
    }
  }

  lemma {:induction false} PrecedesItself(a: string)
    ensures Precedes(a, a)
    decreases |a|
  {
    if a != "" {
      PrecedesItself(a[1..]);
    }
  }

  lemma {:induction false} PrecedesIsTransitive(a: string, b: string, c: string)
    requires Precedes(a, b) && Precedes(b, c)
    ensures Precedes(a, c)
    decreases |a|
  {
    if a != "" && a[0] == b[0] == c[0] {
      PrecedesIsTransitive(a[1..], b[1..], c[1..]);
    }
  }

  lemma {:induction false} PrecedesBothWays(a: string, b: string)
    requires Precedes(a, b) && Precedes(b, a)
    ensures a == b
    decreases |a|
  {
    if a != "" {
      PrecedesBothWays(a[1..], b[1..]);
      assert a == [a[0]] + a[1..] && b == [b[0]] + b[1..];
    }
  }

  lemma {:induction false} InsertKeeps(line: string, lines: seq<string>)
    ensures multiset(Insert(line, lines)) == multiset(lines) + multiset{line}
    ensures Sorted(lines) ==> Sorted(Insert(line, lines))
    ensures Insert(line, lines)[0] == line || (lines != [] && Insert(line, lines)[0] == lines[0])
    decreases |lines|
  {
    if lines != [] {
      PrecedesIsTotal(line, lines[0]);
      InsertKeeps(line, lines[1..]);
      assert lines == [lines[0]] + lines[1..];
      if Sorted(lines) && !Precedes(line, lines[0]) {
        var tail := Insert(line, lines[1..]);
        assert Sorted(lines[1..]);
        assert |lines| > 1 ==> lines[1..][0] == lines[1];
        assert Precedes(lines[0], tail[0]);
      }
    }
  }

  /** Sorting keeps every line, as often as it was there, and puts them in order. */
  lemma {:induction false} SortKeeps(lines: seq<string>)
    ensures multiset(Sort(lines)) == multiset(lines) && Sorted(Sort(lines))
    decreases |lines|
  {
    if lines != [] {
      SortKeeps(lines[1..]);
      InsertKeeps(lines[0], Sort(lines[1..]));
      assert lines == [lines[0]] + lines[1..];
    }
  }
}
