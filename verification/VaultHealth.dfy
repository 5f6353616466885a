/** The client's breach, reuse and weakness report, and what it amounts to end to end. */
module VaultHealth {
  import opened Common
  import opened RangeText
  import opened BreachRange
  import opened RangeLookup

  // -------- the report --------

  datatype Item = Item(id: string, password: Option<string>)

  datatype Login = Login(id: string, password: string)

  datatype ItemHealth = ItemHealth(id: string, breached: bool, count: Num, reused: bool, weak: bool)

  datatype Summary = Summary(total: nat, breached: nat, reused: nat, weak: nat)

  datatype Report = Report(items: seq<ItemHealth>, available: bool, summary: Summary)

  /** The digest, the strength heuristic, and whether a count that is no natural number is above 0. */
  datatype Tools = Tools(sha1: string -> string, weak: string -> bool, positive: string -> bool)

  ghost predicate Sound(tools: Tools) {
    Digests(tools.sha1)
  }

  predicate Positive(tools: Tools, count: Num) {
    match count
    case Natural(n) => n > 0
    case Other(text) => tools.positive(text)
  }

  function Logins(items: seq<Item>): seq<Login>
    decreases |items|
  {
    if items == [] then []
    else
      var front, last := Logins(items[..|items| - 1]), items[|items| - 1];
      if last.password.None? || last.password.value == "" then front else front + [Login(last.id, last.password.value)]
  }

  function Passwords(logins: seq<Login>): seq<string> {
    seq(|logins|, i requires 0 <= i < |logins| => logins[i].password)
  }

  /** The answer got for each prefix asked for; `None` for a request that failed. */
  type Heard = map<string, Option<string>>

  /** What was heard is what the server says over this corpus and these upstream texts. */
  ghost predicate ServedBy(heard: Heard, known: seq<Known>, texts: map<string, string>) {
    forall p | p in heard && heard[p].Some? ::
      IsValidPrefix(p) && heard[p].value == RangeBody(BucketOf(known, p), TextFor(texts, p))
  }

  /**
   * The server behind a network that can lose requests and replies. All that
   * goes over it is the prefixes asked for.
   */
  class RangeClient {
    const service: BreachRangeService
    const fate: nat -> Fate
    var asked: seq<string>
    ghost var heard: Heard

    ghost predicate Valid()
      reads this, service, service.upstream
    {
      && service.Valid()
      && (forall p :: p in heard <==> p in asked)
      && ServedBy(heard, service.known, service.upstreamCache)
      && (service.upstream != null ==> forall p | p in heard && heard[p].Some? :: p in service.upstreamCache)
    }

    constructor (service: BreachRangeService, fate: nat -> Fate)
      requires service.Valid()
      ensures Valid() && this.service == service && this.fate == fate && asked == [] && heard == map[]
    {
      this.service := service;
      this.fate := fate;
      asked, heard := [], map[];
    }

    method Range(prefix: string) returns (body: Option<string>)
      requires Valid()
      modifies this, service`upstreamCache, service.upstream
      ensures Valid() && asked == old(asked) + [prefix] && heard == old(heard)[prefix := body]
      ensures service.known == old(service.known)
      ensures body.Some? <==> fate(|old(asked)|).Delivered? && IsValidPrefix(prefix)
    {
      var sent := fate(|asked|);
      body := None;
      if !sent.RequestLost? {
        body := service.Range(prefix);
        if sent.ReplyLost? {
          body := None;
        }
      }
      asked := asked + [prefix];
      heard := heard[prefix := body];
    }
  }

  function PrefixFor(tools: Tools, login: Login): string {
    PrefixOf(tools.sha1(login.password))
  }

  predicate Answered(heard: Heard, prefix: string) {
    prefix in heard && heard[prefix].Some?
  }

  /** Whether the endpoint answered for each of the first `n` logins. */
  predicate Reachable(tools: Tools, heard: Heard, logins: seq<Login>, n: nat)
    requires n <= |logins|
  {
    forall i | 0 <= i < n :: Answered(heard, PrefixFor(tools, logins[i]))
  }

  /** The count in the answer for the password's own prefix; 0 from the first failure on. */
  function CountFor(tools: Tools, heard: Heard, logins: seq<Login>, i: nat): Num
    requires i < |logins|
  {
    if Reachable(tools, heard, logins, i + 1)
    then Lookup(BucketFor(heard, PrefixFor(tools, logins[i])), SuffixOf(tools.sha1(logins[i].password)))
    else Natural(0)
  }

  function BucketFor(heard: Heard, prefix: string): map<string, Num> {
    if Answered(heard, prefix) then ParseLines(SplitLines(heard[prefix].value)) else map[]
  }

  /** Some other login has the same password. */
  ghost predicate SharesPassword(logins: seq<Login>, i: nat)
    requires i < |logins|
  {
    exists j | 0 <= j < |logins| :: j != i && logins[j].password == logins[i].password
  }

  lemma {:induction false} CountedTwice(s: seq<string>, i: nat)
    requires i < |s|
    ensures multiset(s)[s[i]] > 1 <==> exists j | 0 <= j < |s| :: j != i && s[j] == s[i]
  {
    var x, others := s[i], s[..i] + s[i + 1..];
    assert s == s[..i] + [x] + s[i + 1..];
    assert multiset(s)[x] == multiset(others)[x] + 1;
    if x in others {
      var k :| 0 <= k < |others| && others[k] == x;
      var j := if k < i then k else k + 1;
      assert j != i && s[j] == x;
    }
    if j :| 0 <= j < |s| && j != i && s[j] == x {
      assert others[if j < i then j else j - 1] == x;
    }
  }

  function Tally(items: seq<ItemHealth>): Summary
    decreases |items|
  {
    if items == [] then Summary(0, 0, 0, 0)
    else
      var front, last := Tally(items[..|items| - 1]), items[|items| - 1];
      Summary(front.total + 1, front.breached + (if last.breached then 1 else 0),
              front.reused + (if last.reused then 1 else 0), front.weak + (if last.weak then 1 else 0))
  }

  function Breached(items: seq<ItemHealth>): set<int> {
    set i | 0 <= i < |items| && items[i].breached
  }

  function Reused(items: seq<ItemHealth>): set<int> {
    set i | 0 <= i < |items| && items[i].reused
  }

  function Weak(items: seq<ItemHealth>): set<int> {
    set i | 0 <= i < |items| && items[i].weak
  }

  /** The summary holds how many entries there are, and how many have each of the three flags. */
  predicate Totals(items: seq<ItemHealth>, s: Summary) {
    s == Summary(|items|, |Breached(items)|, |Reused(items)|, |Weak(items)|)
  }

  lemma {:induction false} TallyCounts(items: seq<ItemHealth>)
    ensures Totals(items, Tally(items))
    decreases |items|
  {
    if items != [] {
      var n, front := |items| - 1, items[..|items| - 1];
      TallyCounts(front);
      FlagsOfFront(items, front);
      OneMore(Breached(front), Breached(items), n);
      OneMore(Reused(front), Reused(items), n);
      OneMore(Weak(front), Weak(items), n);
    }
  }

  lemma FlagsOfFront(items: seq<ItemHealth>, front: seq<ItemHealth>)
    requires items != [] && front == items[..|items| - 1]
    ensures Breached(front) == Breached(items) - {|front|}
    ensures Reused(front) == Reused(items) - {|front|}
    ensures Weak(front) == Weak(items) - {|front|}
  {
  }

  lemma OneMore(front: set<int>, all: set<int>, n: int)
    requires front == all - {n}
    ensures |all| == |front| + if n in all then 1 else 0
  {
    if n in all {
      assert all == front + {n};
    } else {
      assert all == front;
    }
  }

  predicate HasPassword(item: Item) {
    item.password.Some? && item.password.value != ""
  }

  /** Those of the first `n` items that have a password. */
  function Filled(items: seq<Item>, n: int): set<int>
    requires n <= |items|
  {
    set i | 0 <= i < n && HasPassword(items[i])
  }

  /** Where an item stands among those with a password. */
  function Rank(items: seq<Item>, n: int): nat
    requires n <= |items|
  {
    |Filled(items, n)|
  }

  lemma {:induction false} LoginsAreCounted(items: seq<Item>)
    ensures |Logins(items)| == Rank(items, |items|)
    decreases |items|
  {
    if items == [] {
      assert Filled(items, 0) == {};
    } else {
      var n, front := |items| - 1, items[..|items| - 1];
      LoginsAreCounted(front);
      FilledFront(items, front, n);
      FilledAfter(items, n);
      OneMore(Filled(items, n), Filled(items, n + 1), n);
    }
  }

  /** The logins are the items with a password, each one at its rank among them. */
  lemma {:induction false} LoginsAreRanked(items: seq<Item>, i: nat)
    requires i < |items| && HasPassword(items[i])
    ensures |Logins(items)| == Rank(items, |items|) > Rank(items, i)
    ensures Logins(items)[Rank(items, i)] == Login(items[i].id, items[i].password.value)
    decreases |items|
  {
    var n, front := |items| - 1, items[..|items| - 1];
    LoginsAreCounted(items);
    FilledFront(items, front, i);
    if i < n {
      LoginsAreRanked(front, i);
    } else {
      LoginsAreCounted(front);
      FilledAfter(items, n);
      OneMore(Filled(items, n), Filled(items, n + 1), n);
    }
  }

  lemma FilledAfter(items: seq<Item>, n: int)
    requires 0 <= n < |items|
    ensures Filled(items, n) == Filled(items, n + 1) - {n}
  {
  }

  lemma FilledFront(items: seq<Item>, front: seq<Item>, n: int)
    requires items != [] && front == items[..|items| - 1] && n < |items|
    ensures Filled(front, n) == Filled(items, n)
  {
  }

  /** `usage`, filled in a loop: how often each password occurs. */
  method CountUsage(logins: seq<Login>) returns (usage: map<string, nat>)
    ensures forall p ::
              (p in usage <==> p in Passwords(logins)) && (p in usage ==> usage[p] == multiset(Passwords(logins))[p])
  {
    usage := map[];
    var all := Passwords(logins);
    for i := 0 to |logins|
      invariant forall p :: (p in usage <==> p in all[..i]) && (p in usage ==> usage[p] == multiset(all[..i])[p])
    {
      var p := logins[i].password;
      assert all[..i + 1] == all[..i] + [p];
      usage := usage[p := (if p in usage then usage[p] else 0) + 1];
    }
    assert all[..|logins|] == all;
  }

  method ParseBody(body: string) returns (bucket: map<string, Num>)
    ensures bucket == ParseLines(SplitLines(body))
  {
    var lines := SplitLines(body);
    bucket := map[];
    for i := 0 to |lines|
      invariant bucket == ParseLines(lines[..i])
    {
      assert lines[..i + 1][..i] == lines[..i];
      if FirstField(lines[i]) != "" {
        bucket := bucket[KeyOf(lines[i]) := CountOf(lines[i])];
      }
    }
    assert lines[..|lines|] == lines;
  }

  method WithPasswords(items: seq<Item>) returns (logins: seq<Login>)
    ensures logins == Logins(items)
  {
    logins := [];
    for i := 0 to |items|
      invariant logins == Logins(items[..i])
    {
      assert items[..i + 1][..i] == items[..i];
      var password := items[i].password;
      if password.Some? && password.value != "" {
        logins := logins + [Login(items[i].id, password.value)];
      }
    }
    assert items[..|items|] == items;
  }

  /** The cache holds, for every prefix asked so far, the bucket of its answer. */
  ghost predicate Cached(heard: Heard, cache: map<string, map<string, Num>>, asked: seq<string>) {
    && Once(asked)
    && (forall p :: p in cache <==> p in asked)
    && (forall p :: p in cache <==> p in heard)
    && (forall p | p in cache :: cache[p] == BucketFor(heard, p))
  }

  ghost predicate HealthOf(tools: Tools, heard: Heard, logins: seq<Login>, i: nat, h: ItemHealth)
    requires i < |logins|
  {
    && h.id == logins[i].id
    && h.count == CountFor(tools, heard, logins, i)
    && h.breached == Positive(tools, h.count)
    && h.reused == SharesPassword(logins, i)
    && h.weak == tools.weak(logins[i].password)
  }

  // -------- end to end --------

  /**
   * The whole way: over any corpus and upstream, with any repeats, a count
   * read from what was heard is the count of its hash.
   */
  lemma ReportedCountIsTheCount(tools: Tools, heard: Heard, known: seq<Known>, texts: map<string, string>,
                                logins: seq<Login>, i: nat)
    requires Sound(tools) && ServedBy(heard, known, texts) && AllHashes(known)
    requires i < |logins| && Reachable(tools, heard, logins, i + 1)
    ensures var hash := tools.sha1(logins[i].password);
            IsCountOf(known, TextFor(texts, PrefixOf(hash)), hash, CountFor(tools, heard, logins, i))
  {
    var hash := tools.sha1(logins[i].password);
    var prefix, suffix := PrefixOf(hash), SuffixOf(hash);
    assert IsHash(hash) && Answered(heard, PrefixFor(tools, logins[i]));
    assert IsValidPrefix(prefix) && IsSuffix(suffix);
    BucketIsProper(known, prefix);
    BodyAnswersLikeLookup(BucketOf(known, prefix), TextFor(texts, prefix), suffix);
    AnswerIsCount(known, TextFor(texts, prefix), hash, CountFor(tools, heard, logins, i));
  }

  /** Until a request fails, each reported count is what the corpus, or else the upstream, gives the hash. */
  ghost predicate CountsAreRight(tools: Tools, heard: Heard, known: seq<Known>, texts: map<string, string>,
                                 logins: seq<Login>, items: seq<ItemHealth>)
    requires |items| == |logins|
  {
    forall i | 0 <= i < |logins| && Reachable(tools, heard, logins, i + 1) ::
      var hash := tools.sha1(logins[i].password);
      IsCountOf(known, TextFor(texts, PrefixOf(hash)), hash, items[i].count)
  }

  /**
   * Until a request fails, an entry is flagged exactly if its password's hash
   * is known to be breached; from then on no entry is.
   */
  ghost predicate FlagsAreRight(tools: Tools, heard: Heard, known: seq<Known>, texts: map<string, string>,
                                logins: seq<Login>, items: seq<ItemHealth>)
    requires |items| == |logins|
  {
    forall i | 0 <= i < |logins| ::
      var hash := tools.sha1(logins[i].password);
      items[i].breached <==>
        && Reachable(tools, heard, logins, i + 1)
        && IsBreached(tools.positive, known, TextFor(texts, PrefixOf(hash)), hash)
  }

  lemma ReportedFlagsAreRight(tools: Tools, heard: Heard, known: seq<Known>, texts: map<string, string>,
                              logins: seq<Login>, items: seq<ItemHealth>)
    requires |items| == |logins| && CountsAreRight(tools, heard, known, texts, logins, items)
    requires forall i | 0 <= i < |logins| :: HealthOf(tools, heard, logins, i, items[i])
    ensures FlagsAreRight(tools, heard, known, texts, logins, items)
  {
    forall i | 0 <= i < |logins|
      ensures var hash := tools.sha1(logins[i].password);
              items[i].breached <==>
                Reachable(tools, heard, logins, i + 1) &&
                IsBreached(tools.positive, known, TextFor(texts, PrefixOf(hash)), hash)
    {
      var hash := tools.sha1(logins[i].password);
      if Reachable(tools, heard, logins, i + 1) {
        BreachedByCount(tools.positive, known, TextFor(texts, PrefixOf(hash)), hash, items[i].count);
      } else {
        assert items[i].count == Natural(0);
      }
    }
  }

  lemma ReportedCountsAreRight(tools: Tools, heard: Heard, known: seq<Known>, texts: map<string, string>,
                               logins: seq<Login>, items: seq<ItemHealth>)
    requires Sound(tools) && ServedBy(heard, known, texts) && AllHashes(known) && |items| == |logins|
    requires forall i | 0 <= i < |logins| :: HealthOf(tools, heard, logins, i, items[i])
    ensures CountsAreRight(tools, heard, known, texts, logins, items)
  {
    forall i | 0 <= i < |logins| && Reachable(tools, heard, logins, i + 1)
      ensures var hash := tools.sha1(logins[i].password);
              IsCountOf(known, TextFor(texts, PrefixOf(hash)), hash, items[i].count)
    {
      ReportedCountIsTheCount(tools, heard, known, texts, logins, i);
    }
  }

  // -------- the report, request by request --------

  /** Answers about more prefixes change nothing for the logins that were all answered. */
  lemma MoreIsHeard(tools: Tools, heard: Heard, later: Heard, logins: seq<Login>, n: nat)
    requires n <= |logins| && Reachable(tools, heard, logins, n)
    requires forall p | p in heard :: p in later && later[p] == heard[p]
    ensures Reachable(tools, later, logins, n)
    ensures forall j | 0 <= j < n :: CountFor(tools, later, logins, j) == CountFor(tools, heard, logins, j)
  {
    forall j | 0 <= j < n
      ensures Answered(heard, PrefixFor(tools, logins[j])) && Answered(later, PrefixFor(tools, logins[j]))
      ensures BucketFor(later, PrefixFor(tools, logins[j])) == BucketFor(heard, PrefixFor(tools, logins[j]))
    {
    }
  }

  /** The entries about the first logins stand when more is heard. */
  lemma HealthStands(tools: Tools, heard: Heard, later: Heard, logins: seq<Login>, out: seq<ItemHealth>)
    requires |out| <= |logins| && Reachable(tools, heard, logins, |out|)
    requires forall p | p in heard :: p in later && later[p] == heard[p]
    requires forall j | 0 <= j < |out| :: HealthOf(tools, heard, logins, j, out[j])
    ensures forall j | 0 <= j < |out| :: HealthOf(tools, later, logins, j, out[j])
  {
    MoreIsHeard(tools, heard, later, logins, |out|);
  }

  /** Every prefix sent is that of one of the first logins. */
  ghost predicate OnlyPrefixes(tools: Tools, logins: seq<Login>, n: nat, asked: seq<string>)
    requires n <= |logins|
  {
    forall p | p in asked :: exists i | 0 <= i < n :: p == PrefixFor(tools, logins[i])
  }

  lemma OnePrefixMore(tools: Tools, logins: seq<Login>, i: nat, before: seq<string>, asked: seq<string>)
    requires i < |logins| && OnlyPrefixes(tools, logins, i, before)
    requires forall p | p in asked :: p in before || p == PrefixFor(tools, logins[i])
    ensures OnlyPrefixes(tools, logins, i + 1, asked)
  {
    forall p | p in asked ensures exists j | 0 <= j < i + 1 :: p == PrefixFor(tools, logins[j]) {
      if p in before {
        var j :| 0 <= j < i && p == PrefixFor(tools, logins[j]);
      } else {
        assert p == PrefixFor(tools, logins[i]);
      }
    }
  }

  ghost predicate AllDelivered(fate: nat -> Fate, n: nat) {
    forall i: nat | i < n :: fate(i).Delivered?
  }

  /** The loop after `|out|` logins. */
  ghost predicate Partway(tools: Tools, fate: nat -> Fate, heard: Heard, asked: seq<string>,
                          cache: map<string, map<string, Num>>, logins: seq<Login>, available: bool,
                          out: seq<ItemHealth>)
  {
    && |out| <= |logins|
    && available == Reachable(tools, heard, logins, |out|)
    && available == AllDelivered(fate, |asked|)
    && Cached(heard, cache, asked)
    && OnlyPrefixes(tools, logins, |out|, asked)
    && (forall j | 0 <= j < |out| :: HealthOf(tools, heard, logins, j, out[j]))
  }

  /** One more answer, or one from the cache. */
  ghost predicate HeardOne(fate: nat -> Fate, heard: Heard, asked: seq<string>, heard': Heard, asked': seq<string>,
                           prefix: string) {
    && (forall p | p in heard :: p in heard' && heard'[p] == heard[p])
    && (asked' == asked || asked' == asked + [prefix])
    && (Answered(heard', prefix) <==> asked' == asked || fate(|asked|).Delivered?)
  }

  lemma DeliveredSoFar(fate: nat -> Fate, heard: Heard, asked: seq<string>, heard': Heard, asked': seq<string>,
                       prefix: string)
    requires AllDelivered(fate, |asked|) && HeardOne(fate, heard, asked, heard', asked', prefix)
    ensures AllDelivered(fate, |asked'|) == Answered(heard', prefix)
  {
    if asked' != asked && Answered(heard', prefix) {
      forall i: nat | i < |asked'| ensures fate(i).Delivered? {
      }
    }
  }

  lemma NextLogin(tools: Tools, fate: nat -> Fate, heard: Heard, asked: seq<string>,
                  cache: map<string, map<string, Num>>,
                  logins: seq<Login>, out: seq<ItemHealth>,
                  heard': Heard, asked': seq<string>, cache': map<string, map<string, Num>>, h: ItemHealth)
    requires Partway(tools, fate, heard, asked, cache, logins, true, out) && |out| < |logins|
    requires HeardOne(fate, heard, asked, heard', asked', PrefixFor(tools, logins[|out|])) &&
             Cached(heard', cache', asked')
    requires HealthOf(tools, heard', logins, |out|, h)
    ensures Partway(tools, fate, heard', asked', cache', logins, Answered(heard', PrefixFor(tools, logins[|out|])),
            out + [h])
  {
    var i := |out|;
    MoreIsHeard(tools, heard, heard', logins, i);
    HealthStands(tools, heard, heard', logins, out);
    OnePrefixMore(tools, logins, i, asked, asked');
    DeliveredSoFar(fate, heard, asked, heard', asked', PrefixFor(tools, logins[i]));
    assert Reachable(tools, heard', logins, i + 1) == Answered(heard', PrefixFor(tools, logins[i]));
  }

  lemma NextAfterFailure(tools: Tools, fate: nat -> Fate, heard: Heard, asked: seq<string>,
                         cache: map<string, map<string, Num>>,
                         logins: seq<Login>, out: seq<ItemHealth>, h: ItemHealth)
    requires Partway(tools, fate, heard, asked, cache, logins, false, out) && |out| < |logins|
    requires HealthOf(tools, heard, logins, |out|, h)
    ensures Partway(tools, fate, heard, asked, cache, logins, false, out + [h])
  {
    OnePrefixMore(tools, logins, |out|, asked, asked);
  }

  lemma CountAt(tools: Tools, heard: Heard, logins: seq<Login>, i: nat)
    requires i < |logins|
    ensures Reachable(tools, heard, logins, i + 1) ==
            (Reachable(tools, heard, logins, i) && Answered(heard, PrefixFor(tools, logins[i])))
    ensures CountFor(tools, heard, logins, i) ==
            if Reachable(tools, heard, logins, i)
            then Lookup(BucketFor(heard, PrefixFor(tools, logins[i])), SuffixOf(tools.sha1(logins[i].password)))
            else Natural(0)
  {
  }

  lemma SentPrefixesAreValid(tools: Tools, logins: seq<Login>, asked: seq<string>)
    requires Sound(tools) && OnlyPrefixes(tools, logins, |logins|, asked)
    ensures forall p | p in asked :: IsValidPrefix(p)
  {
    forall p | p in asked ensures IsValidPrefix(p) {
      var i :| 0 <= i < |logins| && p == PrefixFor(tools, logins[i]);
      assert IsHash(tools.sha1(logins[i].password));
    }
  }

  /**
   * The report: one entry for each item with a password. Over the network go
   * only prefixes of their hashes, and no prefix twice. Up to the first failed
   * request each count is the one the corpus and the upstream give the hash.
   */
  method ReportHealth(tools: Tools, items: seq<Item>, ranges: RangeClient) returns (report: Report)
    requires Sound(tools) && ranges.Valid() && ranges.asked == [] && AllHashes(ranges.service.known)
    modifies ranges, ranges.service`upstreamCache, ranges.service.upstream
    ensures ranges.Valid() && ranges.service.known == old(ranges.service.known)
    ensures var logins := Logins(items);
            && |report.items| == |logins|
            && (forall i | 0 <= i < |logins| :: HealthOf(tools, ranges.heard, logins, i, report.items[i]))
            && report.available == Reachable(tools, ranges.heard, logins, |logins|)
            && Totals(report.items, report.summary)
            && CountsAreRight(tools, ranges.heard, ranges.service.known, ranges.service.upstreamCache, logins,
               report.items)
            && FlagsAreRight(tools, ranges.heard, ranges.service.known, ranges.service.upstreamCache, logins,
               report.items)
            && OnlyPrefixes(tools, logins, |logins|, ranges.asked)
    ensures Once(ranges.asked) && forall p | p in ranges.asked :: IsValidPrefix(p)
    ensures report.available == AllDelivered(ranges.fate, |ranges.asked|)
  {
    var logins := WithPasswords(items);
    var usage := CountUsage(logins);
    var available := true;
    var prefixCache: map<string, map<string, Num>> := map[];
    var out: seq<ItemHealth> := [];
    for i := 0 to |logins|
      invariant |out| == i && ranges.Valid() && ranges.service.known == old(ranges.service.known)
      invariant Partway(tools, ranges.fate, ranges.heard, ranges.asked, prefixCache, logins, available, out)
    {
      var pw := logins[i].password;
      var count := Natural(0);
      ghost var heard, asked, cache, before := ranges.heard, ranges.asked, prefixCache, available;
      if available {
        available, prefixCache, count := BreachCount(tools, pw, prefixCache, ranges);
      }
      ReusedFits(logins, i);
      var h := ItemHealth(logins[i].id, Positive(tools, count), count, usage[pw] > 1, tools.weak(pw));
      if before {
        MoreIsHeard(tools, heard, ranges.heard, logins, i);
        CountAt(tools, ranges.heard, logins, i);
        NextLogin(tools, ranges.fate, heard, asked, cache, logins, out, ranges.heard, ranges.asked, prefixCache, h);
      } else {
        CountAt(tools, ranges.heard, logins, i);
        NextAfterFailure(tools, ranges.fate, heard, asked, cache, logins, out, h);
      }
      out := out + [h];
    }
    SentPrefixesAreValid(tools, logins, ranges.asked);
    ReportedCountsAreRight(tools, ranges.heard, ranges.service.known, ranges.service.upstreamCache, logins, out);
    ReportedFlagsAreRight(tools, ranges.heard, ranges.service.known, ranges.service.upstreamCache, logins, out);
    var summary := Summarise(out);
    report := Report(out, available, summary);
  }

  lemma ReusedFits(logins: seq<Login>, i: nat)
    requires i < |logins|
    ensures logins[i].password in Passwords(logins)
    ensures multiset(Passwords(logins))[logins[i].password] > 1 <==> SharesPassword(logins, i)
  {
    var all := Passwords(logins);
    assert all[i] == logins[i].password;
    CountedTwice(all, i);
    if SharesPassword(logins, i) {
      var j :| 0 <= j < |logins| && j != i && logins[j].password == logins[i].password;
      assert all[j] == all[i];
    }
  }

  lemma CacheGrows(heard: Heard, cache: map<string, map<string, Num>>, asked: seq<string>, prefix: string,
                   body: Option<string>)
    requires Cached(heard, cache, asked) && prefix !in cache
    ensures var later := heard[prefix := body];
            Cached(later, cache[prefix := BucketFor(later, prefix)], asked + [prefix])
  {
  }

  /** One password's count, through the cache. */
  method BreachCount(tools: Tools, pw: string, cache: map<string, map<string, Num>>, ranges: RangeClient)
    returns (available: bool, after: map<string, map<string, Num>>, count: Num)
    requires Sound(tools) && ranges.Valid() && Cached(ranges.heard, cache, ranges.asked)
    requires forall p | p in cache :: Answered(ranges.heard, p)
    modifies ranges, ranges.service`upstreamCache, ranges.service.upstream
    ensures ranges.Valid() && ranges.service.known == old(ranges.service.known)
    ensures Cached(ranges.heard, after, ranges.asked)
    ensures HeardOne(ranges.fate, old(ranges.heard), old(ranges.asked), ranges.heard, ranges.asked,
            PrefixOf(tools.sha1(pw)))
    ensures available == Answered(ranges.heard, PrefixOf(tools.sha1(pw)))
    ensures count == Lookup(BucketFor(ranges.heard, PrefixOf(tools.sha1(pw))), SuffixOf(tools.sha1(pw)))
  {
    var hash := tools.sha1(pw);
    assert IsHash(hash);
    var prefix, suffix := PrefixOf(hash), SuffixOf(hash);
    available, after := true, cache;
    if prefix !in cache {
      ghost var heard, asked := ranges.heard, ranges.asked;
      var bucket := map[];
      var body := ranges.Range(prefix);
      CacheGrows(heard, cache, asked, prefix, body);
      if body.Some? {
        bucket := ParseBody(body.value);
      } else {
        available := false;
      }
      after := cache[prefix := bucket];
    }
    count := Lookup(after[prefix], suffix);
  }

  method Summarise(out: seq<ItemHealth>) returns (s: Summary)
    ensures s == Tally(out) && Totals(out, s)
  {
    TallyCounts(out);
    s := Summary(0, 0, 0, 0);
    for i := 0 to |out|
      invariant s == Tally(out[..i])
    {
      assert out[..i + 1][..i] == out[..i];
      s := Summary(s.total + 1, s.breached + (if out[i].breached then 1 else 0),
                   s.reused + (if out[i].reused then 1 else 0), s.weak + (if out[i].weak then 1 else 0));
    }
    assert out[..|out|] == out;
  }

  // -------- from the loaders to the report --------

  /** The corpus that the server starts with: a file's, or else the list of common passwords. */
  function StartCorpus(sha1: string -> string, file: Option<string>, common: seq<string>): seq<Known> {
    match file
    case Some(text) => CorpusEntries(sha1, SplitLines(text))
    case None => Ranked(sha1, common)
  }

  method StartServer(sha1: string -> string, upstream: Upstream?, file: Option<string>, common: seq<string>)
    returns (service: BreachRangeService)
    requires Digests(sha1) && (upstream != null ==> upstream.calls == [])
    ensures fresh(service) && service.upstream == upstream && service.Valid()
    ensures service.known == StartCorpus(sha1, file, common) && AllHashes(service.known)
  {
    service := new BreachRangeService(upstream, sha1);
    match file {
      case Some(text) =>
        CorpusLoadsHashes(sha1, SplitLines(text));
        var n := service.LoadCorpus(text);
      case None =>
        PasswordsLoadHashes(sha1, common);
        service.LoadPasswords(common);
    }
    assert service.known == [] + StartCorpus(sha1, file, common);
  }

  /**
   * The whole way: a server that starts with any corpus file or password list
   * and any upstream, a network that loses what it will, and a vault. Until a
   * request fails, each count reported is the one that the loaded corpus, or
   * else the upstream's text kept by the server, gives the password's hash.
   */
  method CheckVault(tools: Tools, upstream: Upstream?, file: Option<string>, common: seq<string>, fate: nat -> Fate,
                    items: seq<Item>)
    returns (report: Report, ranges: RangeClient)
    requires Sound(tools) && (upstream != null ==> upstream.calls == [])
    modifies upstream
    ensures fresh(ranges) && fresh(ranges.service) && ranges.Valid()
    ensures |report.items| == |Logins(items)|
    ensures CountsAreRight(tools, ranges.heard, StartCorpus(tools.sha1, file, common), ranges.service.upstreamCache,
                           Logins(items), report.items)
    ensures FlagsAreRight(tools, ranges.heard, StartCorpus(tools.sha1, file, common), ranges.service.upstreamCache,
                          Logins(items), report.items)
    ensures Totals(report.items, report.summary)
    ensures report.available == AllDelivered(fate, |ranges.asked|)
  {
    var service := StartServer(tools.sha1, upstream, file, common);
    ranges := new RangeClient(service, fate);
    report := ReportHealth(tools, items, ranges);
  }
}
