/** What the client finds in the server's text: the parsed lines against a direct lookup in corpus and upstream. */
module RangeLookup {
  import opened RangeText
  import opened BreachRange

  // -------- reading a range --------

  /** The client's bucket: the last line about a suffix wins. */
  function ParseLines(lines: seq<string>): map<string, Num>
    decreases |lines|
  {
    if lines == [] then map[]
    else
      var front, last := ParseLines(lines[..|lines| - 1]), lines[|lines| - 1];
      if FirstField(last) == "" then front else front[KeyOf(last) := CountOf(last)]
  }

  function Lookup(bucket: map<string, Num>, suffix: string): Num {
    if suffix in bucket then bucket[suffix] else Natural(0)
  }

  /** The count of the last line, 0 without any. */
  function LastCount(found: seq<string>): Num {
    if found == [] then Natural(0) else CountOf(found[|found| - 1])
  }

  lemma LookupAppend(front: seq<string>, last: string, suffix: string)
    requires suffix != ""
    ensures Lookup(ParseLines(front + [last]), suffix) ==
            if KeyOf(last) == suffix then CountOf(last) else Lookup(ParseLines(front), suffix)
  {
    var lines := front + [last];
    assert lines[..|lines| - 1] == front;
    assert FirstField(last) == "" ==> KeyOf(last) == "";
  }

  lemma LastCountAppend(front: seq<string>, last: string, suffix: string)
    ensures LastCount(Matching(front + [last], suffix)) ==
            if KeyOf(last) == suffix then CountOf(last) else LastCount(Matching(front, suffix))
  {
    MatchingAppend(front, last, suffix);
  }

  lemma {:induction false} LookupIsLastMatch(lines: seq<string>, suffix: string)
    requires suffix != ""
    ensures Lookup(ParseLines(lines), suffix) == LastCount(Matching(lines, suffix))
    decreases |lines|
  {
    if lines != [] {
      var front, last := lines[..|lines| - 1], lines[|lines| - 1];
      assert lines == front + [last];
      LookupIsLastMatch(front, suffix);
      LookupAppend(front, last, suffix);
      LastCountAppend(front, last, suffix);
    }
  }

  // -------- what a range holds about a suffix --------

  predicate IsSuffix(s: string) {
    |s| == 35 && IsUpperHex(s)
  }

  lemma LocalLineMeans(s: Suffix)
    requires IsUpperHex(s.text)
    ensures FirstField(LocalLine(s)) == s.text && KeyOf(LocalLine(s)) == s.text &&
            CountOf(LocalLine(s)) == Natural(s.count)
    ensures IsLine(LocalLine(s))
  {
    assert ':' !in s.text;
    FieldsOf(s.text, Decimal(s.count));
    UpperHexIsItsOwnKey(s.text);
    DecimalField(s.count);
    LineOfParts(s.text, Decimal(s.count));
  }

  lemma UpperHexIsItsOwnKey(text: string)
    requires IsUpperHex(text)
    ensures Upper(Trim(text)) == text
  {
    TrimKeeps(text);
    UpperKeeps(text);
  }

  lemma DecimalField(n: nat)
    ensures ToNumber(FirstField(Decimal(n))) == Natural(n)
  {
    FieldsOf(Decimal(n), "");
    DecimalReadsBack(n);
  }

  lemma LineOfParts(text: string, digits: string)
    requires IsUpperHex(text) && AllDigits(digits) && digits != ""
    ensures IsLine(text + ":" + digits)
  {
    var line := text + ":" + digits;
    assert line[|line| - 1] == digits[|digits| - 1];
  }

  predicate Proper(bucket: seq<Suffix>) {
    forall i | 0 <= i < |bucket| :: IsUpperHex(bucket[i].text)
  }

  ghost predicate Stores(bucket: seq<Suffix>, suffix: string) {
    exists i | 0 <= i < |bucket| :: bucket[i].text == suffix
  }

  lemma SeenIsStored(bucket: seq<Suffix>, suffix: string)
    requires Proper(bucket)
    ensures suffix in Seen(bucket) <==> Stores(bucket, suffix)
  {
    forall i | 0 <= i < |bucket| ensures FirstField(LocalLine(bucket[i])) == bucket[i].text {
      LocalLineMeans(bucket[i]);
    }
    if suffix in Seen(bucket) {
      var s :| s in bucket && FirstField(LocalLine(s)) == suffix;
      var i :| 0 <= i < |bucket| && bucket[i] == s;
    }
  }

  /** The line of each entry for a suffix is among the local lines about it. */
  lemma {:induction false} EntryIsMatched(bucket: seq<Suffix>, suffix: string, i: nat)
    requires Proper(bucket) && i < |bucket| && bucket[i].text == suffix
    ensures LocalLine(bucket[i]) in Matching(LocalLines(bucket), suffix)
    decreases |bucket|
  {
    FirstLocalLine(bucket, suffix);
    if i > 0 {
      EntryIsMatched(bucket[1..], suffix, i - 1);
    }
  }

  /** And each local line about a suffix is that of an entry for it. */
  lemma {:induction false} MatchIsEntry(bucket: seq<Suffix>, suffix: string, line: string) returns (i: nat)
    requires Proper(bucket) && line in Matching(LocalLines(bucket), suffix)
    ensures i < |bucket| && bucket[i].text == suffix && LocalLine(bucket[i]) == line
    decreases |bucket|
  {
    FirstLocalLine(bucket, suffix);
    if bucket[0].text == suffix && LocalLine(bucket[0]) == line {
      i := 0;
    } else {
      i := MatchIsEntry(bucket[1..], suffix, line);
      i := i + 1;
    }
  }

  lemma FirstLocalLine(bucket: seq<Suffix>, suffix: string)
    requires bucket != [] && IsUpperHex(bucket[0].text)
    ensures Matching(LocalLines(bucket), suffix) ==
            (if bucket[0].text == suffix then [LocalLine(bucket[0])] else []) +
              Matching(LocalLines(bucket[1..]), suffix)
  {
    LocalLineMeans(bucket[0]);
    var rest := LocalLines(bucket[1..]);
    assert ([LocalLine(bucket[0])] + rest)[1..] == rest;
  }

  function TrimAll(lines: seq<string>): seq<string>
    decreases |lines|
  {
    if lines == [] then [] else [Trim(lines[0])] + TrimAll(lines[1..])
  }

  /** Of the upstream's lines, those about a suffix come through unless a local line is about it. */
  lemma {:induction false} UpstreamMatches(lines: seq<string>, seen: set<string>, suffix: string)
    requires |suffix| == 35
    ensures Matching(UpstreamLines(lines, seen), suffix) == if suffix in seen then []
            else TrimAll(Matching(lines, suffix))
    decreases |lines|
  {
    if lines != [] {
      UpstreamMatches(lines[1..], seen, suffix);
      FirstUpstreamLine(lines, seen, suffix);
      var rest := Matching(lines[1..], suffix);
      assert ([lines[0]] + rest)[1..] == rest;
      assert TrimAll([lines[0]] + rest) == [Trim(lines[0])] + TrimAll(rest);
      assert Matching(lines, suffix) == if KeyOf(lines[0]) == suffix then [lines[0]] + rest else rest;
    }
  }

  lemma FirstUpstreamLine(lines: seq<string>, seen: set<string>, suffix: string)
    requires |suffix| == 35 && lines != []
    ensures Matching(UpstreamLines(lines, seen), suffix) ==
            (if KeyOf(lines[0]) == suffix && suffix !in seen then [Trim(lines[0])] else [])
            + Matching(UpstreamLines(lines[1..], seen), suffix)
  {
    var rest := UpstreamLines(lines[1..], seen);
    TrimKeepsMeaning(lines[0]);
    if IsNews(lines[0], seen) {
      var trimmed := Trim(lines[0]);
      assert UpstreamLines(lines, seen) == [trimmed] + rest;
      assert ([trimmed] + rest)[1..] == rest;
    } else {
      assert UpstreamLines(lines, seen) == rest;
    }
  }

  lemma {:induction false} LocalLinesAreLines(bucket: seq<Suffix>)
    requires Proper(bucket)
    ensures forall i | 0 <= i < |LocalLines(bucket)| :: IsLine(LocalLines(bucket)[i])
    decreases |bucket|
  {
    if bucket != [] {
      LocalLineMeans(bucket[0]);
      LocalLinesAreLines(bucket[1..]);
    }
  }

  lemma {:induction false} UpstreamLinesAreLines(lines: seq<string>, seen: set<string>)
    requires forall i | 0 <= i < |lines| :: '\n' !in lines[i]
    ensures forall i | 0 <= i < |UpstreamLines(lines, seen)| :: IsLine(UpstreamLines(lines, seen)[i])
    decreases |lines|
  {
    if lines != [] {
      UpstreamLinesAreLines(lines[1..], seen);
      TrimsAreSlices(lines[0]);
      TrimEndTwice(TrimStart(lines[0]));
    }
  }

  lemma SortedLinesAreLines(lines: seq<string>)
    requires forall i | 0 <= i < |lines| :: IsLine(lines[i])
    ensures forall i | 0 <= i < |Sort(lines)| :: IsLine(Sort(lines)[i])
  {
    SortKeeps(lines);
    forall i | 0 <= i < |Sort(lines)| ensures IsLine(Sort(lines)[i]) {
      assert Sort(lines)[i] in multiset(Sort(lines));
      assert Sort(lines)[i] in multiset(lines);
    }
  }

  /** The client's view of a body is its sorted lines. */
  lemma BodyReadsBack(bucket: seq<Suffix>, up: string, suffix: string)
    requires Proper(bucket) && suffix != ""
    ensures Matching(SplitLines(RangeBody(bucket, up)), suffix) == Matching(Sort(RangeLines(bucket, up)), suffix)
  {
    var lines := RangeLines(bucket, up);
    LocalLinesAreLines(bucket);
    UpstreamLinesAreLines(SplitLines(up), Seen(bucket));
    SortedLinesAreLines(lines);
    SortKeeps(lines);
    if Sort(lines) == [] {
      assert SplitLines("") == [""];
      assert KeyOf("") == "";
    } else {
      SplitUndoesJoin(Sort(lines));
    }
  }

  // -------- which of several lines counts --------

  /** The line that sorts last. */
  ghost predicate Greatest(lines: seq<string>, line: string) {
    line in lines && forall i | 0 <= i < |lines| :: Precedes(lines[i], line)
  }

  lemma {:induction false} SortedBelowLast(lines: seq<string>, i: nat)
    requires Sorted(lines) && i < |lines|
    ensures Precedes(lines[i], lines[|lines| - 1])
    decreases |lines| - i
  {
    if i == |lines| - 1 {
      PrecedesItself(lines[i]);
    } else {
      SortedBelowLast(lines, i + 1);
      PrecedesIsTransitive(lines[i], lines[i + 1], lines[|lines| - 1]);
    }
  }

  lemma MatchesAreLines(lines: seq<string>, key: string, line: string)
    ensures line in Matching(lines, key) <==> line in lines && KeyOf(line) == key
  {
    MatchingCounts(lines, key, line);
    assert line in Matching(lines, key) <==> multiset(Matching(lines, key))[line] > 0;
    assert line in lines <==> multiset(lines)[line] > 0;
  }

  /** In sorted lines, the last about a suffix is the greatest about it. */
  lemma {:induction false} LastMatchIsGreatest(lines: seq<string>, key: string)
    requires Sorted(lines) && Matching(lines, key) != []
    ensures var found := Matching(lines, key); Greatest(found, found[|found| - 1])
    decreases |lines|
  {
    var front, last := lines[..|lines| - 1], lines[|lines| - 1];
    assert lines == front + [last];
    MatchingAppend(front, last, key);
    var found := Matching(lines, key);
    if KeyOf(last) == key {
      forall i | 0 <= i < |found| ensures Precedes(found[i], last) {
        assert found[i] in found;
        MatchesAreLines(lines, key, found[i]);
        var j :| 0 <= j < |lines| && lines[j] == found[i];
        SortedBelowLast(lines, j);
      }
    } else {
      LastMatchIsGreatest(front, key);
    }
  }

  lemma SameMembersSameGreatest(a: seq<string>, b: seq<string>, line: string)
    requires multiset(a) == multiset(b) && Greatest(a, line)
    ensures Greatest(b, line)
  {
    assert line in multiset(a);
    assert line in multiset(b);
    forall i | 0 <= i < |b| ensures Precedes(b[i], line) {
      assert b[i] in multiset(b);
      assert b[i] in multiset(a);
    }
  }

  /** Of all lines of a range about a suffix, the client takes the one that sorts last. */
  lemma BodyGivesGreatest(bucket: seq<Suffix>, up: string, suffix: string) returns (line: string)
    requires Proper(bucket) && suffix != "" && Matching(RangeLines(bucket, up), suffix) != []
    ensures Greatest(Matching(RangeLines(bucket, up), suffix), line)
    ensures Lookup(ParseLines(SplitLines(RangeBody(bucket, up))), suffix) == CountOf(line)
  {
    line := SortedMatch(RangeLines(bucket, up), suffix);
    BodyReadsBack(bucket, up, suffix);
    LookupIsLastMatch(SplitLines(RangeBody(bucket, up)), suffix);
  }

  lemma SortedMatch(lines: seq<string>, suffix: string) returns (line: string)
    requires Matching(lines, suffix) != []
    ensures Greatest(Matching(lines, suffix), line) && LastCount(Matching(Sort(lines), suffix)) == CountOf(line)
  {
    var found := Matching(Sort(lines), suffix);
    SortKeeps(lines);
    SortKeepsMatching(lines, suffix);
    assert |multiset(found)| == |multiset(Matching(lines, suffix))|;
    LastMatchIsGreatest(Sort(lines), suffix);
    line := found[|found| - 1];
    SameMembersSameGreatest(found, Matching(lines, suffix), line);
  }

  lemma BodyWithoutMatch(bucket: seq<Suffix>, up: string, suffix: string)
    requires Proper(bucket) && suffix != "" && Matching(RangeLines(bucket, up), suffix) == []
    ensures Lookup(ParseLines(SplitLines(RangeBody(bucket, up))), suffix) == Natural(0)
  {
    SortKeepsMatching(RangeLines(bucket, up), suffix);
    assert |multiset(Matching(Sort(RangeLines(bucket, up)), suffix))| == 0;
    BodyReadsBack(bucket, up, suffix);
    LookupIsLastMatch(SplitLines(RangeBody(bucket, up)), suffix);
  }

  /** A stored suffix is answered by local lines only, another one by the upstream's. */
  lemma RangeMatches(bucket: seq<Suffix>, up: string, suffix: string)
    requires Proper(bucket) && IsSuffix(suffix)
    ensures Matching(RangeLines(bucket, up), suffix) ==
            if Stores(bucket, suffix) then Matching(LocalLines(bucket), suffix)
            else TrimAll(Matching(SplitLines(up), suffix))
  {
    MatchingOfConcat(LocalLines(bucket), UpstreamLines(SplitLines(up), Seen(bucket)), suffix);
    UpstreamMatches(SplitLines(up), Seen(bucket), suffix);
    SeenIsStored(bucket, suffix);
    if !Stores(bucket, suffix) {
      var local := Matching(LocalLines(bucket), suffix);
      if local != [] {
        var i := MatchIsEntry(bucket, suffix, local[0]);
      }
    }
  }

  // -------- the answer to a lookup --------

  /** Entry `i` is about the suffix, and no other such entry's count sorts after its count, as texts. */
  ghost predicate EntryWins(bucket: seq<Suffix>, suffix: string, i: nat) {
    && i < |bucket| && bucket[i].text == suffix
    && forall j | 0 <= j < |bucket| && bucket[j].text == suffix ::
       Precedes(Decimal(bucket[j].count), Decimal(bucket[i].count))
  }

  /** Line `i` is one of those found, and none of them sorts after it, once trimmed. */
  ghost predicate LineWins(found: seq<string>, i: nat) {
    i < |found| && forall j | 0 <= j < |found| :: Precedes(Trim(found[j]), Trim(found[i]))
  }

  ghost predicate IsUpstreamCount(up: string, suffix: string, count: Num) {
    var found := Matching(SplitLines(up), suffix);
    if found == [] then count == Natural(0)
    else exists i: nat :: LineWins(found, i) && count == CountOf(found[i])
  }

  /** What a lookup of a suffix gives, said about the corpus bucket and the upstream text alone. */
  ghost predicate IsAnswer(bucket: seq<Suffix>, up: string, suffix: string, count: Num) {
    if Stores(bucket, suffix) then exists i: nat :: EntryWins(bucket, suffix, i) && count == Natural(bucket[i].count)
    else IsUpstreamCount(up, suffix, count)
  }

  lemma LinesOrderLikeCounts(suffix: string, a: nat, b: nat)
    ensures Precedes(LocalLine(Suffix(suffix, a)), LocalLine(Suffix(suffix, b))) == Precedes(Decimal(a), Decimal(b))
  {
    SamePrefix(suffix + ":", Decimal(a), Decimal(b));
  }

  /** Of all entries for a suffix, however many, the one whose count sorts last as a text is the one that counts. */
  lemma StoredEntryAnswers(bucket: seq<Suffix>, up: string, suffix: string) returns (i: nat)
    requires Proper(bucket) && IsSuffix(suffix) && Stores(bucket, suffix)
    ensures EntryWins(bucket, suffix, i)
    ensures Lookup(ParseLines(SplitLines(RangeBody(bucket, up))), suffix) == Natural(bucket[i].count)
  {
    var local := Matching(LocalLines(bucket), suffix);
    RangeMatches(bucket, up, suffix);
    var some :| 0 <= some < |bucket| && bucket[some].text == suffix;
    EntryIsMatched(bucket, suffix, some);
    var line := BodyGivesGreatest(bucket, up, suffix);
    i := MatchIsEntry(bucket, suffix, line);
    LocalLineMeans(bucket[i]);
    forall j | 0 <= j < |bucket| && bucket[j].text == suffix
      ensures Precedes(Decimal(bucket[j].count), Decimal(bucket[i].count))
    {
      EntryIsMatched(bucket, suffix, j);
      assert LocalLine(bucket[j]) in local;
      LinesOrderLikeCounts(suffix, bucket[j].count, bucket[i].count);
    }
  }

  lemma {:induction false} TrimAllAt(lines: seq<string>, i: nat)
    requires i < |lines|
    ensures |TrimAll(lines)| == |lines| && TrimAll(lines)[i] == Trim(lines[i])
    decreases |lines|
  {
    if |lines| > 1 {
      TrimAllAt(lines[1..], if i > 0 then i - 1 else 0);
    }
  }

  lemma UpstreamAnswers(bucket: seq<Suffix>, up: string, suffix: string)
    requires Proper(bucket) && IsSuffix(suffix) && !Stores(bucket, suffix)
    ensures IsUpstreamCount(up, suffix, Lookup(ParseLines(SplitLines(RangeBody(bucket, up))), suffix))
  {
    var found := Matching(SplitLines(up), suffix);
    RangeMatches(bucket, up, suffix);
    if found == [] {
      BodyWithoutMatch(bucket, up, suffix);
    } else {
      TrimAllAt(found, 0);
      var line := BodyGivesGreatest(bucket, up, suffix);
      var i :| 0 <= i < |found| && TrimAll(found)[i] == line;
      TrimAllAt(found, i);
      TrimKeepsMeaning(found[i]);
      forall j | 0 <= j < |found| ensures Precedes(Trim(found[j]), Trim(found[i])) {
        TrimAllAt(found, j);
      }
      assert LineWins(found, i);
    }
  }

  /**
   * For every bucket and every upstream text, with any repeats, the client
   * finds in the server's body what the direct lookup gives.
   */
  lemma BodyAnswersLikeLookup(bucket: seq<Suffix>, up: string, suffix: string)
    requires Proper(bucket) && IsSuffix(suffix)
    ensures IsAnswer(bucket, up, suffix, Lookup(ParseLines(SplitLines(RangeBody(bucket, up))), suffix))
  {
    if Stores(bucket, suffix) {
      var i := StoredEntryAnswers(bucket, up, suffix);
    } else {
      UpstreamAnswers(bucket, up, suffix);
    }
  }

  // -------- the same about the corpus --------

  ghost predicate AllHashes(known: seq<Known>) {
    forall i | 0 <= i < |known| :: IsHash(known[i].hash)
  }

  lemma {:induction false} UpperOfHex(s: string)
    requires IsHex(s)
    ensures IsUpperHex(Upper(s))
    decreases |s|
  {
    if s != "" {
      UpperOfHex(s[..|s| - 1]);
    }
  }

  lemma CorpusEntryIsHash(sha1: string -> string, line: string)
    requires Digests(sha1)
    ensures IsHash(CorpusEntry(sha1, line).hash)
  {
    var t := Trim(line);
    if |t| > 41 && IsHex(t[..40]) {
      UpperOfHex(t[..40]);
    }
  }

  /** Whatever a corpus file holds, what is loaded of it are hashes. */
  lemma {:induction false} CorpusLoadsHashes(sha1: string -> string, lines: seq<string>)
    requires Digests(sha1)
    ensures AllHashes(CorpusEntries(sha1, lines))
    decreases |lines|
  {
    if lines != [] {
      CorpusLoadsHashes(sha1, lines[..|lines| - 1]);
      CorpusEntryIsHash(sha1, lines[|lines| - 1]);
    }
  }

  /** And so of a list of passwords. */
  lemma PasswordsLoadHashes(sha1: string -> string, passwords: seq<string>)
    requires Digests(sha1)
    ensures AllHashes(Ranked(sha1, passwords))
  {
    forall i | 0 <= i < |passwords| ensures IsHash(Ranked(sha1, passwords)[i].hash) {
      assert IsHash(sha1(passwords[i]));
    }
  }

  /** A bucket entry is one of the loaded hashes with that prefix. */
  lemma {:induction false} BucketEntryIsKnown(known: seq<Known>, prefix: string, i: nat) returns (k: nat)
    requires AllHashes(known) && i < |BucketOf(known, prefix)|
    ensures k < |known| && PrefixOf(known[k].hash) == prefix
    ensures BucketOf(known, prefix)[i] == Suffix(SuffixOf(known[k].hash), known[k].count)
    ensures i == |BucketOf(known[..k], prefix)|
    decreases |known|
  {
    var front := known[..|known| - 1];
    if i < |BucketOf(front, prefix)| {
      k := BucketEntryIsKnown(front, prefix, i);
      assert front[..k] == known[..k];
    } else {
      k := |known| - 1;
    }
  }

  lemma {:induction false} KnownIsInBucket(known: seq<Known>, k: nat) returns (i: nat)
    requires k < |known|
    ensures i < |BucketOf(known, PrefixOf(known[k].hash))|
    ensures BucketOf(known, PrefixOf(known[k].hash))[i] == Suffix(SuffixOf(known[k].hash), known[k].count)
    decreases |known|
  {
    var front := known[..|known| - 1];
    if k < |known| - 1 {
      i := KnownIsInBucket(front, k);
    } else {
      i := |BucketOf(front, PrefixOf(known[k].hash))|;
    }
  }

  lemma BucketIsProper(known: seq<Known>, prefix: string)
    requires AllHashes(known)
    ensures Proper(BucketOf(known, prefix))
  {
    var bucket := BucketOf(known, prefix);
    forall i | 0 <= i < |bucket| ensures IsUpperHex(bucket[i].text) {
      var k := BucketEntryIsKnown(known, prefix, i);
      assert IsHash(known[k].hash);
    }
  }

  lemma HashIsItsParts(a: string, b: string)
    ensures PrefixOf(a) == PrefixOf(b) && SuffixOf(a) == SuffixOf(b) && |a| >= 5 && |b| >= 5 ==> a == b
  {
    if |a| >= 5 && |b| >= 5 {
      assert a == a[..5] + a[5..] && b == b[..5] + b[5..];
    }
  }

  ghost predicate Knows(known: seq<Known>, hash: string) {
    exists k | 0 <= k < |known| :: known[k].hash == hash
  }

  /** Load `k` is of this hash, and no other load's count of it sorts after its count, as texts. */
  ghost predicate LoadWins(known: seq<Known>, hash: string, k: nat) {
    && k < |known| && known[k].hash == hash
    && forall j | 0 <= j < |known| && known[j].hash == hash ::
       Precedes(Decimal(known[j].count), Decimal(known[k].count))
  }

  /** The count of a hash: what the corpus stores for it, else what the upstream says, else 0. */
  ghost predicate IsCountOf(known: seq<Known>, up: string, hash: string, count: Num) {
    if Knows(known, hash) then exists k: nat :: LoadWins(known, hash, k) && count == Natural(known[k].count)
    else IsUpstreamCount(up, SuffixOf(hash), count)
  }

  lemma EntryOfHash(known: seq<Known>, hash: string, i: nat) returns (k: nat)
    requires AllHashes(known) && IsHash(hash) && i < |BucketOf(known, PrefixOf(hash))|
    requires BucketOf(known, PrefixOf(hash))[i].text == SuffixOf(hash)
    ensures k < |known| && known[k].hash == hash && known[k].count == BucketOf(known, PrefixOf(hash))[i].count
  {
    k := BucketEntryIsKnown(known, PrefixOf(hash), i);
    assert IsHash(known[k].hash);
    HashIsItsParts(known[k].hash, hash);
  }

  /** The answer about a bucket is the count of the hash. */
  lemma AnswerIsCount(known: seq<Known>, up: string, hash: string, count: Num)
    requires AllHashes(known) && IsHash(hash)
    requires IsAnswer(BucketOf(known, PrefixOf(hash)), up, SuffixOf(hash), count)
    ensures IsCountOf(known, up, hash, count)
  {
    var bucket, suffix := BucketOf(known, PrefixOf(hash)), SuffixOf(hash);
    if Stores(bucket, suffix) {
      var i: nat :| EntryWins(bucket, suffix, i) && count == Natural(bucket[i].count);
      var k := EntryOfHash(known, hash, i);
      forall j | 0 <= j < |known| && known[j].hash == hash
        ensures Precedes(Decimal(known[j].count), Decimal(known[k].count))
      {
        var e := KnownIsInBucket(known, j);
        assert bucket[e].text == suffix;
      }
      assert LoadWins(known, hash, k);
    } else if Knows(known, hash) {
      var k :| 0 <= k < |known| && known[k].hash == hash;
      var e := KnownIsInBucket(known, k);
      assert false;
    }
  }

  /** One count only fits a hash. */
  lemma CountIsUnique(known: seq<Known>, up: string, hash: string, a: Num, b: Num)
    requires IsCountOf(known, up, hash, a) && IsCountOf(known, up, hash, b)
    ensures a == b
  {
    if Knows(known, hash) {
      var i: nat :| LoadWins(known, hash, i) && a == Natural(known[i].count);
      var j: nat :| LoadWins(known, hash, j) && b == Natural(known[j].count);
      PrecedesBothWays(Decimal(known[i].count), Decimal(known[j].count));
      DecimalReadsBack(known[i].count);
      DecimalReadsBack(known[j].count);
    } else {
      var found := Matching(SplitLines(up), SuffixOf(hash));
      if found != [] {
        var i: nat :| LineWins(found, i) && a == CountOf(found[i]);
        var j: nat :| LineWins(found, j) && b == CountOf(found[j]);
        PrecedesBothWays(Trim(found[i]), Trim(found[j]));
        TrimKeepsMeaning(found[i]);
        TrimKeepsMeaning(found[j]);
      }
    }
  }

  lemma {:induction false} DecimalStarts(n: nat)
    requires n > 0
    ensures Decimal(n)[0] > '0'
    decreases n
  {
    if n >= 10 {
      DecimalStarts(n / 10);
    }
  }

  /** Whatever sorts first or last, a count above 0 wins over 0. */
  lemma WinnerIsNotZero(known: seq<Known>, hash: string, k: nat)
    requires LoadWins(known, hash, k)
    ensures known[k].count > 0 <==> exists j | 0 <= j < |known| :: known[j].hash == hash && known[j].count > 0
  {
    if j :| 0 <= j < |known| && known[j].hash == hash && known[j].count > 0 {
      DecimalStarts(known[j].count);
      assert Decimal(0) == "0";
      assert Precedes(Decimal(known[j].count), Decimal(known[k].count));
    }
  }

  /**
   * A hash is known to be breached: the corpus, if it has the hash at all, was
   * loaded with a count above 0 for it; otherwise the upstream's count is at
   * least 1, or another text that passes for a positive number.
   */
  ghost predicate IsBreached(positive: string -> bool, known: seq<Known>, up: string, hash: string) {
    if Knows(known, hash) then exists k | 0 <= k < |known| :: known[k].hash == hash && known[k].count > 0
    else
      || (exists n: nat :: n >= 1 && IsUpstreamCount(up, SuffixOf(hash), Natural(n)))
      || (exists text :: IsUpstreamCount(up, SuffixOf(hash), Other(text)) && positive(text))
  }

  /** Which is to say that the count of the hash is at least 1, or such a text. */
  lemma BreachedByCount(positive: string -> bool, known: seq<Known>, up: string, hash: string, count: Num)
    requires IsCountOf(known, up, hash, count)
    ensures IsBreached(positive, known, up, hash) <==>
            (count.Natural? && count.n >= 1) || (count.Other? && positive(count.text))
  {
    if Knows(known, hash) {
      var k: nat :| LoadWins(known, hash, k) && count == Natural(known[k].count);
      WinnerIsNotZero(known, hash, k);
    } else {
      forall other: Num | IsUpstreamCount(up, SuffixOf(hash), other) ensures other == count {
        CountIsUnique(known, up, hash, other, count);
      }
      assert count == if count.Natural? then Natural(count.n) else Other(count.text);
    }
  }

  /** A hash that was loaded once has the count it was loaded with. */
  lemma CountOfOneLoad(known: seq<Known>, up: string, hash: string, k: nat, count: Num)
    requires k < |known| && known[k].hash == hash && IsCountOf(known, up, hash, count)
    requires forall j | 0 <= j < |known| && known[j].hash == hash :: j == k
    ensures count == Natural(known[k].count)
  {
    PrecedesItself(Decimal(known[k].count));
    assert LoadWins(known, hash, k);
    CountIsUnique(known, up, hash, count, Natural(known[k].count));
  }

  /**
   * With any repeats, the largest count that was loaded for a hash is the one
   * reported if and only if no other count loaded for it sorts after it, as texts.
   */
  lemma LargestCountExactly(known: seq<Known>, up: string, hash: string, k: nat, count: Num)
    requires k < |known| && known[k].hash == hash && IsCountOf(known, up, hash, count)
    requires forall j | 0 <= j < |known| && known[j].hash == hash :: known[j].count <= known[k].count
    ensures count == Natural(known[k].count) <==>
            forall j | 0 <= j < |known| && known[j].hash == hash ::
              Precedes(Decimal(known[j].count), Decimal(known[k].count))
  {
    if LoadWins(known, hash, k) {
      CountIsUnique(known, up, hash, count, Natural(known[k].count));
    }
  }

  /** Loaded as 10 and as 9, a hash is reported with 9. */
  lemma RepeatedHashMisleads(hash: string, up: string, count: Num)
    requires IsCountOf([Known(hash, 10), Known(hash, 9)], up, hash, count)
    ensures count == Natural(9)
  {
    var known := [Known(hash, 10), Known(hash, 9)];
    assert known[0].hash == hash;
    assert Decimal(9) == "9" && Decimal(1) == "1" && Decimal(10) == Decimal(1) + "0" == "10";
    PrecedesItself("9");
    assert Precedes("10", "9");
    assert LoadWins(known, hash, 1);
    CountIsUnique(known, up, hash, count, Natural(9));
  }

  lemma {:induction false} SamePrefix(front: string, a: string, b: string)
    ensures Precedes(front + a, front + b) == Precedes(a, b)
    decreases |front|
  {
    if front == "" {
      assert front + a == a && front + b == b;
    } else {
      SamePrefix(front[1..], a, b);
      assert (front + a)[1..] == front[1..] + a && (front + b)[1..] == front[1..] + b;
    }
  }
}
