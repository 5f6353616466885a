/** The server's breach index: buckets of hash suffixes, and an upstream whose answers are kept. */
module BreachRange {
  import opened Common
  import opened RangeText

  /** One breached hash, as it was loaded. */
  datatype Known = Known(hash: string, count: nat)

  datatype Suffix = Suffix(text: string, count: nat)

  predicate IsUpperHex(s: string) {
    forall i | 0 <= i < |s| :: IsDigit(s[i]) || 'A' <= s[i] <= 'F'
  }

  predicate IsHex(s: string) {
    forall i | 0 <= i < |s| :: IsDigit(s[i]) || 'A' <= s[i] <= 'F' || 'a' <= s[i] <= 'f'
  }

  /** What a SHA-1 in upper-case hexadecimal looks like. */
  predicate IsHash(s: string) {
    |s| == 40 && IsUpperHex(s)
  }

  /** The digest: every text has such a hash. */
  ghost predicate Digests(sha1: string -> string) {
    forall s: string :: IsHash(sha1(s))
  }

  function PrefixOf(hash: string): string {
    if |hash| < 5 then hash else hash[..5]
  }

  function SuffixOf(hash: string): string {
    if |hash| < 5 then "" else hash[5..]
  }

  predicate IsValidPrefix(prefix: string) {
    |prefix| == 5 && IsUpperHex(prefix)
  }

  /** The suffixes loaded for a prefix, in loading order. */
  function BucketOf(known: seq<Known>, prefix: string): seq<Suffix>
    decreases |known|
  {
    if known == [] then []
    else
      var front, last := BucketOf(known[..|known| - 1], prefix), known[|known| - 1];
      if PrefixOf(last.hash) == prefix then front + [Suffix(SuffixOf(last.hash), last.count)] else front
  }

  lemma BucketOfAppend(known: seq<Known>, last: Known, prefix: string)
    ensures BucketOf(known + [last], prefix) ==
            BucketOf(known, prefix) +
            if PrefixOf(last.hash) == prefix then [Suffix(SuffixOf(last.hash), last.count)] else []
  {
    assert (known + [last])[..|known|] == known;
  }

  // -------- the text of a range --------

  function LocalLine(s: Suffix): string {
    s.text + ":" + Decimal(s.count)
  }

  function LocalLines(bucket: seq<Suffix>): seq<string>
    decreases |bucket|
  {
    if bucket == [] then [] else [LocalLine(bucket[0])] + LocalLines(bucket[1..])
  }

  function Seen(bucket: seq<Suffix>): set<string> {
    set s | s in bucket :: FirstField(LocalLine(s))
  }

  /** The suffix that a line is about. */
  function KeyOf(line: string): string {
    Upper(Trim(FirstField(line)))
  }

  predicate IsNews(line: string, seen: set<string>) {
    |KeyOf(line)| == 35 && KeyOf(line) !in seen
  }

  function UpstreamLines(lines: seq<string>, seen: set<string>): seq<string>
    decreases |lines|
  {
    if lines == [] then []
    else (if IsNews(lines[0], seen) then [Trim(lines[0])] else []) + UpstreamLines(lines[1..], seen)
  }

  /** Local lines, and those of the upstream's text that no local line is about; `""` when there is no upstream. */
  function RangeLines(bucket: seq<Suffix>, up: string): seq<string> {
    LocalLines(bucket) + UpstreamLines(SplitLines(up), Seen(bucket))
  }

  /** The upstream's text for a prefix, as far as the server has it. */
  function TextFor(texts: map<string, string>, prefix: string): string {
    if prefix in texts then texts[prefix] else ""
  }

  function RangeBody(bucket: seq<Suffix>, up: string): string {
    JoinLines(Sort(RangeLines(bucket, up)))
  }

  // -------- the service --------

  /** The remote index: it may answer differently each time, or fail. */
  class Upstream {
    var calls: seq<string>
    const replies: (nat, string) -> Option<string>

    constructor (replies: (nat, string) -> Option<string>)
      ensures this.replies == replies && calls == []
    {
      this.replies := replies;
      calls := [];
    }

    method FetchRange(prefix: string) returns (reply: Option<string>)
      modifies this
      ensures calls == old(calls) + [prefix] && reply == replies(|old(calls)|, prefix)
    {
      reply := replies(|calls|, prefix);
      calls := calls + [prefix];
    }
  }

  /** A password and its rank as a count. */
  function Ranked(sha1: string -> string, passwords: seq<string>): seq<Known> {
    seq(|passwords|, i requires 0 <= i < |passwords| => Known(sha1(passwords[i]), |passwords| - i))
  }

  /** A corpus line is `HASH:COUNT`, or else a password that counts once. */
  function CorpusEntry(sha1: string -> string, line: string): Known {
    var t := Trim(line);
    if |t| > 41 && IsHex(t[..40]) && t[40] == ':' && AllDigits(t[41..]) then Known(Upper(t[..40]), DigitsValue(t[41..]))
    else Known(sha1(line), 1)
  }

  function CorpusEntries(sha1: string -> string, lines: seq<string>): seq<Known>
    decreases |lines|
  {
    if lines == [] then []
    else
      var front, last := CorpusEntries(sha1, lines[..|lines| - 1]), lines[|lines| - 1];
      if last == "" then front else front + [CorpusEntry(sha1, last)]
  }

  /** No element twice. */
  ghost predicate Once(s: seq<string>) {
    forall i, j | 0 <= i < j < |s| :: s[i] != s[j]
  }

  function Bucket(buckets: map<string, seq<Suffix>>, prefix: string): seq<Suffix> {
    if prefix in buckets then buckets[prefix] else []
  }

  /** The buckets hold what was loaded. */
  ghost predicate Indexes(buckets: map<string, seq<Suffix>>, known: seq<Known>) {
    forall prefix :: Bucket(buckets, prefix) == BucketOf(known, prefix)
  }

  lemma IndexGrows(buckets: map<string, seq<Suffix>>, known: seq<Known>, last: Known)
    requires Indexes(buckets, known)
    ensures var prefix := PrefixOf(last.hash);
            var grown := Bucket(buckets, prefix) + [Suffix(SuffixOf(last.hash), last.count)];
            Indexes(buckets[prefix := grown], known + [last])
  {
    var prefix := PrefixOf(last.hash);
    var after := buckets[prefix := Bucket(buckets, prefix) + [Suffix(SuffixOf(last.hash), last.count)]];
    forall p ensures Bucket(after, p) == BucketOf(known + [last], p) {
      BucketOfAppend(known, last, p);
    }
  }

  /** The cache has one text for each upstream call, and no call was made twice. */
  ghost predicate Remembers(cache: map<string, string>, calls: seq<string>) {
    Once(calls) && forall p :: p in calls <==> p in cache
  }

  lemma RemembersOneMore(cache: map<string, string>, calls: seq<string>, prefix: string, text: string)
    requires Remembers(cache, calls) && prefix !in cache
    ensures Remembers(cache[prefix := text], calls + [prefix])
  {
  }

  class BreachRangeService {
    var buckets: map<string, seq<Suffix>>
    var upstreamCache: map<string, string>
    const upstream: Upstream?
    const sha1: string -> string
    /** What was loaded so far. */
    ghost var known: seq<Known>

    ghost predicate Valid()
      reads this, upstream
    {
      && Indexes(buckets, known)
      && (upstream != null ==> Remembers(upstreamCache, upstream.calls))
      && (upstream == null ==> upstreamCache == map[])
    }

    constructor (upstream: Upstream?, sha1: string -> string)
      requires upstream != null ==> upstream.calls == []
      ensures Valid() && known == [] && this.upstream == upstream && this.sha1 == sha1
    {
      this.upstream := upstream;
      this.sha1 := sha1;
      buckets, upstreamCache, known := map[], map[], [];
    }

    method AddHash(hash: string, count: nat)
      requires Valid()
      modifies this`buckets, this`known
      ensures Valid() && known == old(known) + [Known(hash, count)]
    {
      IndexGrows(buckets, known, Known(hash, count));
      var prefix := PrefixOf(hash);
      buckets := buckets[prefix := Bucket(buckets, prefix) + [Suffix(SuffixOf(hash), count)]];
      known := known + [Known(hash, count)];
    }

    method LoadPasswords(passwords: seq<string>)
      requires Valid()
      modifies this`buckets, this`known
      ensures Valid() && known == old(known) + Ranked(sha1, passwords)
    {
      for i := 0 to |passwords|
        invariant Valid() && known == old(known) + Ranked(sha1, passwords)[..i]
      {
        AddHash(sha1(passwords[i]), |passwords| - i);
      }
    }

    method LoadCorpus(text: string) returns (n: nat)
      requires Valid()
      modifies this`buckets, this`known
      ensures Valid() && known == old(known) + CorpusEntries(sha1, SplitLines(text))
      ensures n == |known| - |old(known)|
    {
      var lines := SplitLines(text);
      n := 0;
      for i := 0 to |lines|
        invariant Valid() && known == old(known) + CorpusEntries(sha1, lines[..i])
        invariant n == |known| - |old(known)|
      {
        assert lines[..i + 1][..i] == lines[..i];
        if lines[i] != "" {
          var entry := CorpusEntry(sha1, lines[i]);
          AddHash(entry.hash, entry.count);
          n := n + 1;
        }
      }
      assert lines[..|lines|] == lines;
    }

    /**
     * The body for a prefix; `None` refuses a malformed prefix. The upstream
     * is asked once per prefix, whether it answered or failed.
     */
    method Range(prefix: string) returns (body: Option<string>)
      requires Valid()
      modifies this`upstreamCache, upstream
      ensures Valid() && known == old(known)
      ensures body.Some? <==> IsValidPrefix(prefix)
      ensures body.Some? ==>
                body.value == RangeBody(BucketOf(known, prefix), TextFor(upstreamCache, prefix))
      ensures if body.None? || upstream == null || prefix in old(upstreamCache)
              then upstreamCache == old(upstreamCache) && (upstream != null ==> upstream.calls == old(upstream.calls))
              else var reply := upstream.replies(|old(upstream.calls)|, prefix);
                   && upstream.calls == old(upstream.calls) + [prefix]
                   && upstreamCache == old(upstreamCache)[prefix := if reply.Some? then reply.value else ""]
    {
      if !IsValidPrefix(prefix) {
        return None;
      }
      var bucket := Bucket(buckets, prefix);
      var local := ToLines(bucket);
      var up := "";
      if upstream != null {
        if prefix in upstreamCache {
          up := upstreamCache[prefix];
        } else {
          var reply := upstream.FetchRange(prefix);
          up := if reply.Some? then reply.value else "";
          RemembersOneMore(upstreamCache, old(upstream.calls), prefix, up);
          upstreamCache := upstreamCache[prefix := up];
        }
      }
      local := Merge(bucket, local, up);
      body := Some(JoinLines(Sort(local)));
    }

    method ToLines(bucket: seq<Suffix>) returns (local: seq<string>)
      ensures local == LocalLines(bucket)
    {
      local := [];
      for i := 0 to |bucket|
        invariant local + LocalLines(bucket[i..]) == LocalLines(bucket)
      {
        assert bucket[i..][1..] == bucket[i + 1..];
        local := local + [LocalLine(bucket[i])];
      }
    }

    method Merge(bucket: seq<Suffix>, local: seq<string>, up: string) returns (merged: seq<string>)
      requires local == LocalLines(bucket)
      ensures merged == RangeLines(bucket, up)
    {
      var seen := Seen(bucket);
      var lines := SplitLines(up);
      merged := local;
      for i := 0 to |lines|
        invariant merged + UpstreamLines(lines[i..], seen) == RangeLines(bucket, up)
      {
        assert lines[i..][1..] == lines[i + 1..];
        if IsNews(lines[i], seen) {
          merged := merged + [Trim(lines[i])];
        }
      }
    }
  }

  /** Asking again gives the same body, and asks the upstream nothing. */
  method AskTwice(service: BreachRangeService, prefix: string) returns (first: Option<string>, second: Option<string>)
    requires service.Valid()
    modifies service`upstreamCache, service.upstream
    ensures service.Valid() && first == second
    ensures service.upstream != null ==> |service.upstream.calls| <= |old(service.upstream.calls)| + 1
  {
    first := service.Range(prefix);
    second := service.Range(prefix);
  }

  // -------- which lines a range holds about a suffix --------

  /** The lines about a suffix, in order. */
  function Matching(lines: seq<string>, key: string): seq<string>
    decreases |lines|
  {
    if lines == [] then []
    else (if KeyOf(lines[0]) == key then [lines[0]] else []) + Matching(lines[1..], key)
  }

  /** The count that a line gives. */
  function CountOf(line: string): Num {
    match SecondField(line)
    case None => Natural(0)
    case Some(text) => ToNumber(text)
  }

  lemma {:induction false} MatchingOfConcat(a: seq<string>, b: seq<string>, key: string)
    ensures Matching(a + b, key) == Matching(a, key) + Matching(b, key)
    decreases |a|
  {
    if a == [] {
      assert a + b == b;
    } else {
      MatchingOfConcat(a[1..], b, key);
      assert (a + b)[1..] == a[1..] + b && (a + b)[0] == a[0];
      var first := if KeyOf(a[0]) == key then [a[0]] else [];
      assert Matching(a + b, key) == first + Matching(a[1..] + b, key);
      assert Matching(a, key) == first + Matching(a[1..], key);
    }
  }

  lemma MatchingAppend(front: seq<string>, last: string, key: string)
    ensures Matching(front + [last], key) == Matching(front, key) + if KeyOf(last) == key then [last] else []
  {
    MatchingOfConcat(front, [last], key);
    assert [last][1..] == [];
  }

  /** How often a line occurs among those about a suffix. */
  lemma {:induction false} MatchingCounts(lines: seq<string>, key: string, line: string)
    ensures multiset(Matching(lines, key))[line] == if KeyOf(line) == key then multiset(lines)[line] else 0
    decreases |lines|
  {
    if lines != [] {
      MatchingCounts(lines[1..], key, line);
      assert lines == [lines[0]] + lines[1..];
    }
  }

  lemma SortKeepsMatching(lines: seq<string>, key: string)
    ensures multiset(Matching(Sort(lines), key)) == multiset(Matching(lines, key))
  {
    SortKeeps(lines);
    forall line ensures multiset(Matching(Sort(lines), key))[line] == multiset(Matching(lines, key))[line] {
      MatchingCounts(Sort(lines), key, line);
      MatchingCounts(lines, key, line);
    }
  }

  /** Trimming a line changes neither what it is about nor its count. */
  lemma TrimKeepsMeaning(line: string)
    ensures KeyOf(Trim(line)) == KeyOf(line) && CountOf(Trim(line)) == CountOf(line)
  {
    var i := IndexOf(line, ':');
    if i == |line| {
      assert ':' !in Trim(line) by {
        TrimsAreSlices(line);
      }
      FieldsOf(line, "");
      FieldsOf(Trim(line), "");
      TrimOfTrims(line);
    } else {
      var first, rest := line[..i], line[i + 1..];
      assert line == first + [':'] + rest;
      TrimStartKeepsBack(first, ':', rest);
      TrimEndKeepsFront(TrimStart(first), ':', rest);
      assert Trim(line) == TrimStart(first) + ":" + TrimEnd(rest);
      TrimsAreSlices(first);
      FieldsOf(first, rest);
      FieldsOf(TrimStart(first), TrimEnd(rest));
      TrimOfTrims(first);
      FieldOfTrimmed(rest);
    }
  }

  /** Trimming only drops characters. */
  lemma {:induction false} TrimsAreSlices(s: string)
    ensures forall c | c !in s :: c !in TrimStart(s) && c !in TrimEnd(s) && c !in Trim(s)
  {
    forall c | c !in s ensures c !in TrimStart(s) && c !in TrimEnd(s) && c !in Trim(s) {
      TrimStartDrops(s, c);
      TrimEndDrops(s, c);
      TrimEndDrops(TrimStart(s), c);
    }
  }

  lemma {:induction false} TrimStartDrops(s: string, c: char)
    requires c !in s
    ensures c !in TrimStart(s)
    decreases |s|
  {
    if s != "" && IsSpace(s[0]) {
      TrimStartDrops(s[1..], c);
    }
  }

  lemma {:induction false} TrimEndDrops(s: string, c: char)
    requires c !in s
    ensures c !in TrimEnd(s)
    decreases |s|
  {
    if s != "" && IsSpace(s[|s| - 1]) {
      TrimEndDrops(s[..|s| - 1], c);
    }
  }

  /** The count field of a trimmed rest reads as the same number. */
  lemma FieldOfTrimmed(rest: string)
    ensures ToNumber(FirstField(TrimEnd(rest))) == ToNumber(FirstField(rest))
  {
    var i := IndexOf(rest, ':');
    if i == |rest| {
      TrimEndDrops(rest, ':');
      FieldsOf(rest, "");
      FieldsOf(TrimEnd(rest), "");
      TrimOfTrims(rest);
    } else {
      var first, more := rest[..i], rest[i + 1..];
      assert rest == first + [':'] + more;
      TrimEndKeepsFront(first, ':', more);
      FieldsOf(first, more);
      FieldsOf(first, TrimEnd(more));
      assert TrimEnd(rest) == first + ":" + TrimEnd(more);
    }
  }
}
