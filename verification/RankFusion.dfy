/**
 Merging what several retrieval channels found: `DedupPostProcessor.Process` and
 `FusionPostProcessor.Process` of `internal/biz/rag/retrieve_multi.go`.

 A chunk is known by its key (the chunk ID, or a hash of its text); `float64` is modelled as `real`.
 */
module RankFusion {
  import opened Basics
  import opened BestByKey
  import opened StableSort

  datatype Channel = IntentDirected | Keyword | VectorGlobal | Graph | WebSearch | OtherChannel(name: string)

  datatype Chunk = Chunk(key: string, score: real, text: string, channel: Option<Channel>)

  datatype Result = Result(channel: Channel, chunks: seq<Chunk>)

  datatype Weights = Weights(vector: real, keyword: real, graph: real, webSearch: real)

  /** All chunks of a list of results, channel after channel. */
  function Flatten(results: seq<Result>): seq<Chunk> {
    if results == [] then [] else Flatten(results[..|results| - 1]) + results[|results| - 1].chunks
  }

  predicate Listed(chunks: seq<Chunk>, key: string) {
    exists r :: 0 <= r < |chunks| && chunks[r].key == key
  }

  function KeyOf(c: Chunk): string { c.key }

  function ScoreOf(c: Chunk): real { c.score }

  // ----- Deduplication -----

  function Priority(channel: Channel): nat {
    match channel
    case IntentDirected => 1
    case Keyword => 2
    case VectorGlobal => 3
    case Graph => 4
    case _ => 99
  }

  predicate ByPriority(a: Result, b: Result) {
    Priority(a.channel) < Priority(b.channel)
  }

  /** What deduplication reads, in the order in which it reads it. */
  function DedupInput(chunks: seq<Chunk>, results: seq<Result>): seq<Chunk> {
    Flatten(Sort(if results == [] then [Result(OtherChannel(""), chunks)] else results, ByPriority))
  }

  lemma OneResult(r: Result)
    ensures Flatten(Sort([r], ByPriority)) == r.chunks
  {
    assert Sort([r], ByPriority) == [r];
    assert [r][..0] == [];
  }

  lemma FlattenPrefix(results: seq<Result>, r: nat)
    requires r < |results|
    ensures Flatten(results[..r + 1]) == Flatten(results[..r]) + results[r].chunks
  {
    assert results[..r + 1][..r] == results[..r];
  }

  lemma FlattenNothing(results: seq<Result>)
    ensures Flatten(results[..0]) == [] && results[..|results|] == results
  {
  }

  lemma OneMore<T>(a: seq<T>, b: seq<T>, i: nat)
    requires i < |b|
    ensures a + b[..i] + [b[i]] == a + b[..i + 1]
  {
  }

  method Dedup(chunks: seq<Chunk>, results: seq<Result>) returns (deduped: seq<Chunk>)
    ensures chunks == [] ==> deduped == []
    ensures chunks != [] ==> Deduped(DedupInput(chunks, results), KeyOf, ScoreOf, deduped)
  {
    hide Deduped, Indexed, Flatten, Sort;
    if |chunks| == 0 {
      return chunks;
    }
    var ordered := results;
    if |ordered| == 0 {
      ordered := [Result(OtherChannel(""), chunks)];
    }
    ordered := Sort(ordered, ByPriority);
    var indexByKey: map<string, nat> := map[];
    deduped := [];
    NothingSeen(KeyOf, ScoreOf);
    FlattenNothing(ordered);
    for r := 0 to |ordered|
      invariant Deduped(Flatten(ordered[..r]), KeyOf, ScoreOf, deduped) && Indexed(deduped, KeyOf, indexByKey)
    {
      var found := ordered[r].chunks;
      ghost var before := Flatten(ordered[..r]);
      assert before + found[..0] == before;
      for i := 0 to |found|
        invariant Deduped(before + found[..i], KeyOf, ScoreOf, deduped) && Indexed(deduped, KeyOf, indexByKey)
      {
        deduped, indexByKey := Add(before + found[..i], KeyOf, ScoreOf, deduped, indexByKey, found[i]);
        OneMore(before, found, i);
      }
      assert found[..|found|] == found;
      FlattenPrefix(ordered, r);
    }
  }

  function OfChannel(results: seq<Result>, channel: Channel): seq<Result> {
    Filter(results, (r: Result) => r.channel == channel)
  }

  /** Channels that deduplication puts last. */
  function OfOthers(results: seq<Result>): seq<Result> {
    Filter(results, (r: Result) => r.channel.WebSearch? || r.channel.OtherChannel?)
  }

  function InOrder(results: seq<Result>): seq<Result> {
    OfChannel(results, IntentDirected) + OfChannel(results, Keyword) + OfChannel(results, VectorGlobal) +
    OfChannel(results, Graph) + OfOthers(results)
  }

  lemma {:induction false} SortedIsInOrder(s: seq<Result>)
    requires SortedBy(s, ByPriority)
    ensures s == InOrder(s)
  {
    if s != [] {
      var rest := s[1..];
      forall i, j | 0 <= i < j < |rest| ensures !ByPriority(rest[j], rest[i]) {
        assert rest[i] == s[i + 1] && rest[j] == s[j + 1];
      }
      SortedIsInOrder(rest);
      forall r | r in rest ensures !ByPriority(r, s[0]) {
        var j :| 0 <= j < |rest| && rest[j] == r;
        assert s[j + 1] == r;
      }
      FirstInOrder(s[0], rest);
      assert s == [s[0]] + rest;
    }
  }

  lemma OfCons(first: Result, rest: seq<Result>, channel: Channel)
    ensures OfChannel([first] + rest, channel) ==
            (if first.channel == channel then [first] else []) + OfChannel(rest, channel)
    ensures OfOthers([first] + rest) ==
            (if first.channel.WebSearch? || first.channel.OtherChannel? then [first] else []) + OfOthers(rest)
  {
    FilterCons(first, rest, (r: Result) => r.channel == channel);
    FilterCons(first, rest, (r: Result) => r.channel.WebSearch? || r.channel.OtherChannel?);
  }

  lemma OfNone(rest: seq<Result>, channel: Channel)
    requires forall r :: r in rest ==> r.channel != channel
    ensures OfChannel(rest, channel) == []
  {
    NoneOf(rest, (r: Result) => r.channel == channel);
  }

  lemma {:induction false} FirstInOrder(first: Result, rest: seq<Result>)
    requires forall r :: r in rest ==> !ByPriority(r, first)
    ensures InOrder([first] + rest) == [first] + InOrder(rest)
  {
    hide Filter, OfChannel, OfOthers;
    forall c ensures OfChannel([first] + rest, c) == (if first.channel == c then [first] else []) + OfChannel(rest, c) {
      OfCons(first, rest, c);
    }
    OfCons(first, rest, Graph);
    forall c: Channel | Priority(c) < Priority(first.channel) ensures OfChannel(rest, c) == [] { OfNone(rest, c); }
    hide Priority;
    match first.channel
    case IntentDirected =>
    case Keyword => Before4(first.channel);
    case _ => Before4(first.channel);
  }

  lemma Before4(c: Channel)
    ensures c.Keyword? ==> Priority(IntentDirected) < Priority(c)
    ensures c.VectorGlobal? ==> Priority(IntentDirected) < Priority(c) && Priority(Keyword) < Priority(c)
    ensures c.Graph? ==>
              Priority(IntentDirected) < Priority(c) && Priority(Keyword) < Priority(c) &&
                Priority(VectorGlobal) < Priority(c)
    ensures c.WebSearch? || c.OtherChannel? ==>
              Priority(IntentDirected) < Priority(c) && Priority(Keyword) < Priority(c) &&
              Priority(VectorGlobal) < Priority(c) && Priority(Graph) < Priority(c)
  {
  }

  lemma {:induction false} NoneOf(s: seq<Result>, p: Result -> bool)
    requires forall r :: r in s ==> !p(r)
    ensures Filter(s, p) == []
  {
    if s != [] { NoneOf(s[1..], p); }
  }

  lemma PriorityOrders()
    ensures StrictWeakOrder(ByPriority)
  {
  }

  lemma SortIsInOrder(results: seq<Result>)
    ensures Sort(results, ByPriority) == InOrder(results)
  {
    var s := Sort(results, ByPriority);
    PriorityOrders();
    SortSorted(results, ByPriority);
    SortedIsInOrder(s);
    SortStable(results, ByPriority, (r: Result) => r.channel == IntentDirected);
    SortStable(results, ByPriority, (r: Result) => r.channel == Keyword);
    SortStable(results, ByPriority, (r: Result) => r.channel == VectorGlobal);
    SortStable(results, ByPriority, (r: Result) => r.channel == Graph);
    SortStable(results, ByPriority, (r: Result) => r.channel.WebSearch? || r.channel.OtherChannel?);
  }

  /**
   The order in which deduplication reads the channels, which decides between equal scores: directed,
   keyword, global, graph, then the others, each kind as it came.
   */
  lemma {:induction false} DedupReadsInOrder(chunks: seq<Chunk>, results: seq<Result>)
    ensures DedupInput(chunks, results) == if results == [] then chunks else Flatten(InOrder(results))
  {
    hide Sort, InOrder, Flatten;
    SortIsInOrder(results);
    OneResult(Result(OtherChannel(""), chunks));
  }

  // ----- Reciprocal rank fusion -----

  function WeightOf(weights: Weights, channel: Channel): real {
    match channel
    case VectorGlobal => weights.vector
    case IntentDirected => weights.vector
    case Keyword => weights.keyword
    case Graph => weights.graph
    case WebSearch => weights.webSearch
    case OtherChannel(_) => 1.0
  }

  /** What one hit at rank `rank` (from 0) is worth. */
  function Worth(weight: real, k: nat, rank: nat): real
    requires k > 0
  {
    weight / (k + rank + 1) as real
  }

  /** What the first `n` chunks of one channel add to the score of `key`. */
  function RankSum(chunks: seq<Chunk>, n: nat, weight: real, k: nat, key: string): real
    requires k > 0 && n <= |chunks|
  {
    if n == 0 then 0.0
    else RankSum(chunks, n - 1, weight, k, key) + (if chunks[n - 1].key == key then Worth(weight, k, n - 1) else 0.0)
  }

  /** The fused score of `key` over the first `n` channels. */
  function ScoreSum(results: seq<Result>, n: nat, weights: Weights, k: nat, key: string): real
    requires k > 0 && n <= |results|
  {
    if n == 0 then 0.0
    else
      ScoreSum(results, n - 1, weights, k, key) +
      RankSum(results[n - 1].chunks, |results[n - 1].chunks|, WeightOf(weights, results[n - 1].channel), k, key)
  }

  function FusedScore(results: seq<Result>, weights: Weights, k: nat, key: string): real
    requires k > 0
  {
    ScoreSum(results, |results|, weights, k, key)
  }

  ghost predicate ListedSomewhere(results: seq<Result>, key: string) {
    exists c :: 0 <= c < |results| && Listed(results[c].chunks, key)
  }

  lemma {:induction false} UnlistedAddsNothing(chunks: seq<Chunk>, n: nat, weight: real, k: nat, key: string)
    requires k > 0 && n <= |chunks| && forall r :: 0 <= r < n ==> chunks[r].key != key
    ensures RankSum(chunks, n, weight, k, key) == 0.0
  {
    if n > 0 { UnlistedAddsNothing(chunks, n - 1, weight, k, key); }
  }

  lemma {:induction false} HitCounts(chunks: seq<Chunk>, n: nat, weight: real, k: nat, key: string, r: nat)
    requires k > 0 && r < n <= |chunks| && chunks[r].key == key && weight >= 0.0
    ensures RankSum(chunks, n, weight, k, key) >= Worth(weight, k, r)
  {
    if r < n - 1 {
      HitCounts(chunks, n - 1, weight, k, key, r);
    } else {
      RankSumNonNegative(chunks, n - 1, weight, k, key);
    }
  }

  lemma {:induction false} RankSumNonNegative(chunks: seq<Chunk>, n: nat, weight: real, k: nat, key: string)
    requires k > 0 && n <= |chunks| && weight >= 0.0
    ensures RankSum(chunks, n, weight, k, key) >= 0.0
  {
    if n > 0 { RankSumNonNegative(chunks, n - 1, weight, k, key); }
  }

  lemma {:induction false} OnlyHit(chunks: seq<Chunk>, n: nat, weight: real, k: nat, key: string, r: nat)
    requires k > 0 && r < n <= |chunks| && chunks[r].key == key
    requires forall q :: 0 <= q < n && chunks[q].key == key ==> q == r
    ensures RankSum(chunks, n, weight, k, key) == Worth(weight, k, r)
  {
    if r < n - 1 {
      OnlyHit(chunks, n - 1, weight, k, key, r);
    } else {
      UnlistedAddsNothing(chunks, n - 1, weight, k, key);
    }
  }

  /** A higher rank is worth at least as much, and more if the channel has weight. */
  lemma HigherRankIsWorthMore(weight: real, k: nat, a: nat, b: nat)
    requires k > 0 && weight >= 0.0 && a <= b
    ensures Worth(weight, k, a) >= Worth(weight, k, b)
    ensures weight > 0.0 && a < b ==> Worth(weight, k, a) > Worth(weight, k, b)
    ensures Worth(weight, k, b) >= 0.0 && (weight > 0.0 ==> Worth(weight, k, b) > 0.0)
  {
    var x, y := (k + a + 1) as real, (k + b + 1) as real;
    assert weight / x - weight / y == weight * (y - x) / (x * y);
    assert x * y > 0.0;
  }

  /** The configured weight of a result's channel. */
  predicate HasWeight(weights: Weights, channel: Channel, w: real) {
    match channel
    case VectorGlobal => w == weights.vector
    case IntentDirected => w == weights.vector
    case Keyword => w == weights.keyword
    case Graph => w == weights.graph
    case WebSearch => w == weights.webSearch
    case OtherChannel(_) => w == 1.0
  }

  lemma {:induction false} SameSum(a: seq<Result>, b: seq<Result>, n: nat, weights: Weights, k: nat, key: string)
    requires k > 0 && n <= |a| && n <= |b| && a[..n] == b[..n]
    ensures ScoreSum(a, n, weights, k, key) == ScoreSum(b, n, weights, k, key)
  {
    hide RankSum, WeightOf;
    if n > 0 {
      assert a[n - 1] == a[..n][n - 1] == b[..n][n - 1] == b[n - 1];
      assert a[..n - 1] == a[..n][..n - 1] == b[..n][..n - 1] == b[..n - 1];
      SameSum(a, b, n - 1, weights, k, key);
    }
  }

  lemma {:induction false} SameRankSum(a: seq<Chunk>, b: seq<Chunk>, n: nat, weight: real, k: nat, key: string)
    requires k > 0 && n <= |a| && n <= |b| && a[..n] == b[..n]
    ensures RankSum(a, n, weight, k, key) == RankSum(b, n, weight, k, key)
  {
    hide Worth;
    if n > 0 {
      assert a[n - 1] == a[..n][n - 1] == b[..n][n - 1] == b[n - 1];
      assert a[..n - 1] == a[..n][..n - 1] == b[..n][..n - 1] == b[..n - 1];
      SameRankSum(a, b, n - 1, weight, k, key);
    }
  }

  lemma {:induction false} ScoreOfLast(front: seq<Result>, last: Result, weights: Weights, k: nat, key: string)
    requires k > 0
    ensures FusedScore(front + [last], weights, k, key) ==
            FusedScore(front, weights, k, key) +
            RankSum(last.chunks, |last.chunks|, WeightOf(weights, last.channel), k, key)
  {
    hide RankSum, WeightOf;
    SameSum(front + [last], front, |front|, weights, k, key);
  }

  /**
   What fusion adds up, from nothing: a channel that lists nothing adds nothing, and a further chunk of the
   last channel, at rank r from 0, adds the weight of the channel divided by k + r + 1 to its own key.
   */
  lemma {:induction false} EachHitIsWorth(front: seq<Result>, channel: Channel, chunks: seq<Chunk>, x: Chunk,
                                          weights: Weights, k: nat, key: string, w: real)
    requires k > 0 && HasWeight(weights, channel, w)
    ensures FusedScore([], weights, k, key) == 0.0
    ensures FusedScore(front + [Result(channel, [])], weights, k, key) == FusedScore(front, weights, k, key)
    ensures FusedScore(front + [Result(channel, chunks + [x])], weights, k, key) ==
            FusedScore(front + [Result(channel, chunks)], weights, k, key) +
            if x.key == key then w / (k + |chunks| + 1) as real else 0.0
  {
    ScoreOfLast(front, Result(channel, []), weights, k, key);
    ScoreOfLast(front, Result(channel, chunks), weights, k, key);
    ScoreOfLast(front, Result(channel, chunks + [x]), weights, k, key);
    SameRankSum(chunks + [x], chunks, |chunks|, w, k, key);
    hide FusedScore;
  }

  lemma {:induction false} NotListedScore(results: seq<Result>, n: nat, weights: Weights, k: nat, key: string)
    requires k > 0 && n <= |results|
    requires forall c, r :: 0 <= c < n && 0 <= r < |results[c].chunks| ==> results[c].chunks[r].key != key
    ensures ScoreSum(results, n, weights, k, key) == 0.0
  {
    if n > 0 {
      NotListedScore(results, n - 1, weights, k, key);
      UnlistedAddsNothing(results[n - 1].chunks, |results[n - 1].chunks|, WeightOf(weights, results[n - 1].channel), k,
          key);
    }
  }

  lemma {:induction false} OneHitScore(results: seq<Result>, n: nat, weights: Weights, k: nat, key: string, c: nat,
                                       r: nat)
    requires k > 0 && c < n <= |results| && r < |results[c].chunks|
    requires forall d, q :: 0 <= d < n && 0 <= q < |results[d].chunks| ==>
               (results[d].chunks[q].key == key <==> d == c && q == r)
    ensures ScoreSum(results, n, weights, k, key) == Worth(WeightOf(weights, results[c].channel), k, r)
  {
    hide Worth, WeightOf;
    var w := WeightOf(weights, results[n - 1].channel);
    if c < n - 1 {
      OneHitScore(results, n - 1, weights, k, key, c, r);
      UnlistedAddsNothing(results[n - 1].chunks, |results[n - 1].chunks|, w, k, key);
    } else {
      NotListedScore(results, n - 1, weights, k, key);
      OnlyHit(results[c].chunks, |results[c].chunks|, w, k, key, r);
    }
  }

  lemma {:induction false} TwoHitsScore(results: seq<Result>, n: nat, weights: Weights, k: nat, key: string, c: nat,
                                        r: nat, d: nat, q: nat)
    requires k > 0 && c < d < n <= |results| && r < |results[c].chunks| && q < |results[d].chunks|
    requires forall e, p :: 0 <= e < n && 0 <= p < |results[e].chunks| ==>
               (results[e].chunks[p].key == key <==> (e == c && p == r) || (e == d && p == q))
    ensures ScoreSum(results, n, weights, k, key) ==
            Worth(WeightOf(weights, results[c].channel), k, r) + Worth(WeightOf(weights, results[d].channel), k, q)
  {
    hide Worth, WeightOf;
    var w := WeightOf(weights, results[n - 1].channel);
    if d < n - 1 {
      TwoHitsScore(results, n - 1, weights, k, key, c, r, d, q);
      UnlistedAddsNothing(results[n - 1].chunks, |results[n - 1].chunks|, w, k, key);
    } else {
      OneHitScore(results, n - 1, weights, k, key, c, r);
      OnlyHit(results[d].chunks, |results[d].chunks|, w, k, key, q);
    }
  }

  ghost predicate ListedOnce(chunks: seq<Chunk>, key: string) {
    forall p, q :: 0 <= p < |chunks| && 0 <= q < |chunks| && chunks[p].key == key && chunks[q].key == key ==> p == q
  }

  /** Channel by channel: wherever `b` is listed, `a` is listed at the same rank or above. */
  ghost predicate NoWorse(chunks: seq<Chunk>, a: string, b: string) {
    forall rb :: 0 <= rb < |chunks| && chunks[rb].key == b ==> exists ra :: 0 <= ra <= rb && chunks[ra].key == a
  }

  /** `a` is listed above `b`, or listed where `b` is not. */
  ghost predicate Better(chunks: seq<Chunk>, a: string, b: string) {
    && Listed(chunks, a)
    && forall rb :: 0 <= rb < |chunks| && chunks[rb].key == b ==> exists ra :: 0 <= ra < rb && chunks[ra].key == a
  }

  lemma ChannelDominance(chunks: seq<Chunk>, weight: real, k: nat, a: string, b: string)
    requires k > 0 && weight >= 0.0 && ListedOnce(chunks, b) && NoWorse(chunks, a, b)
    ensures RankSum(chunks, |chunks|, weight, k, a) >= RankSum(chunks, |chunks|, weight, k, b)
    ensures weight > 0.0 && Better(chunks, a, b) ==>
              RankSum(chunks, |chunks|, weight, k, a) > RankSum(chunks, |chunks|, weight, k, b)
  {
    RankSumNonNegative(chunks, |chunks|, weight, k, a);
    if rb :| 0 <= rb < |chunks| && chunks[rb].key == b {
      OnlyHit(chunks, |chunks|, weight, k, b, rb);
      var ra :| 0 <= ra <= rb && chunks[ra].key == a;
      if Better(chunks, a, b) { ra :| 0 <= ra < rb && chunks[ra].key == a; }
      HitCounts(chunks, |chunks|, weight, k, a, ra);
      HigherRankIsWorthMore(weight, k, ra, rb);
    } else {
      UnlistedAddsNothing(chunks, |chunks|, weight, k, b);
      if Better(chunks, a, b) {
        var ra :| 0 <= ra < |chunks| && chunks[ra].key == a;
        HitCounts(chunks, |chunks|, weight, k, a, ra);
        HigherRankIsWorthMore(weight, k, ra, ra);
      }
    }
  }

  ghost predicate NonNegative(weights: Weights) {
    weights.vector >= 0.0 && weights.keyword >= 0.0 && weights.graph >= 0.0 && weights.webSearch >= 0.0
  }

  /** In every channel `b` is listed at most once and `a` does no worse. */
  ghost predicate NoWorseAnywhere(results: seq<Result>, a: string, b: string) {
    forall c :: 0 <= c < |results| ==> ListedOnce(results[c].chunks, b) && NoWorse(results[c].chunks, a, b)
  }

  /** In a channel that has weight, `a` does better. */
  ghost predicate BetterSomewhere(results: seq<Result>, n: nat, weights: Weights, a: string, b: string)
    requires n <= |results|
  {
    exists c :: 0 <= c < n && WeightOf(weights, results[c].channel) > 0.0 && Better(results[c].chunks, a, b)
  }

  lemma {:induction false} SumDominance(results: seq<Result>, n: nat, weights: Weights, k: nat, a: string, b: string)
    requires k > 0 && n <= |results| && NonNegative(weights) && NoWorseAnywhere(results, a, b)
    ensures ScoreSum(results, n, weights, k, a) >= ScoreSum(results, n, weights, k, b)
    ensures BetterSomewhere(results, n, weights, a, b) ==>
              ScoreSum(results, n, weights, k, a) > ScoreSum(results, n, weights, k, b)
  {
    if n > 0 {
      SumDominance(results, n - 1, weights, k, a, b);
      ChannelDominance(results[n - 1].chunks, WeightOf(weights, results[n - 1].channel), k, a, b);
      if BetterSomewhere(results, n, weights, a, b) && !BetterSomewhere(results, n - 1, weights, a, b) {
        assert Better(results[n - 1].chunks, a, b);
      }
    }
  }

  /** Rank dominance: doing no worse in every channel scores no less, doing better in one scores more. */
  lemma FusionDominance(results: seq<Result>, weights: Weights, k: nat, a: string, b: string)
    requires k > 0 && NonNegative(weights) && NoWorseAnywhere(results, a, b)
    ensures FusedScore(results, weights, k, a) >= FusedScore(results, weights, k, b)
    ensures BetterSomewhere(results, |results|, weights, a, b) ==>
              FusedScore(results, weights, k, a) > FusedScore(results, weights, k, b)
  {
    SumDominance(results, |results|, weights, k, a, b);
  }

  // ----- The fused list -----

  predicate ByScore(a: Chunk, b: Chunk) {
    a.score > b.score
  }

  function AddChannel(channels: seq<Channel>, channel: Channel, listed: bool): seq<Channel> {
    if listed && channel !in channels then channels + [channel] else channels
  }

  /** The channels among the first `n` results that list `key`, each once. */
  function ChannelsOf(results: seq<Result>, n: nat, key: string): seq<Channel>
    requires n <= |results|
  {
    if n == 0 then []
    else AddChannel(ChannelsOf(results, n - 1, key), results[n - 1].channel, Listed(results[n - 1].chunks, key))
  }

  /** `channel` belongs to the first result that lists `key`. */
  ghost predicate FirstToList(results: seq<Result>, key: string, channel: Channel) {
    exists c :: 0 <= c < |results| && FirstListing(results, key, c) && results[c].channel == channel
  }

  ghost predicate FirstListing(results: seq<Result>, key: string, c: int) {
    && 0 <= c < |results|
    && Listed(results[c].chunks, key)
    && forall d :: 0 <= d < c ==> !Listed(results[d].chunks, key)
  }

  lemma {:induction false} FirstChannelOf(results: seq<Result>, n: nat, key: string)
    requires n <= |results|
    ensures ChannelsOf(results, n, key) == [] <==> forall d :: 0 <= d < n ==> !Listed(results[d].chunks, key)
    ensures ChannelsOf(results, n, key) != [] ==> FirstToList(results, key, ChannelsOf(results, n, key)[0])
  {
    if n > 0 {
      FirstChannelOf(results, n - 1, key);
      if ChannelsOf(results, n - 1, key) == [] && Listed(results[n - 1].chunks, key) {
        assert FirstListing(results, key, n - 1);
      }
    }
  }

  lemma {:induction false} ChannelsGrow(results: seq<Result>, m: nat, n: nat, key: string)
    requires m <= n <= |results|
    ensures ChannelsOf(results, m, key) <= ChannelsOf(results, n, key)
  {
    hide Listed;
    if m < n { ChannelsGrow(results, m, n - 1, key); }
  }

  /** `channel` is that of one of the first `n` results, which lists `key`. */
  ghost predicate Lists(results: seq<Result>, n: nat, key: string, channel: Channel)
    requires n <= |results|
  {
    exists d :: 0 <= d < n && Listed(results[d].chunks, key) && results[d].channel == channel
  }

  lemma ListsStep(results: seq<Result>, n: nat, key: string, channel: Channel)
    requires 0 < n <= |results|
    ensures Lists(results, n, key, channel) <==>
              || Lists(results, n - 1, key, channel)
              || (Listed(results[n - 1].chunks, key) && results[n - 1].channel == channel)
  {
  }

  /** The channels that list a key are each named once, by the first result of theirs that does. */
  lemma {:induction false} ChannelsAre(results: seq<Result>, m: nat, n: nat, key: string, channel: Channel)
    requires m <= n <= |results|
    ensures channel in ChannelsOf(results, n, key) <==> Lists(results, n, key, channel)
    ensures multiset(ChannelsOf(results, n, key))[channel] <= 1
    ensures ChannelsOf(results, m, key) <= ChannelsOf(results, n, key)
    decreases n
  {
    hide Listed, Lists;
    ChannelsGrow(results, m, n, key);
    if n > 0 {
      ChannelsAre(results, n - 1, n - 1, key, channel);
      ListsStep(results, n, key, channel);
    } else {
      NoneLists(results, key, channel);
    }
  }

  lemma NoneLists(results: seq<Result>, key: string, channel: Channel)
    ensures !Lists(results, 0, key, channel)
  {
  }

  function ChannelsAt(index: map<string, seq<Channel>>, key: string): seq<Channel> {
    if key in index then index[key] else []
  }

  lemma ListedStep(chunks: seq<Chunk>, i: nat, key: string)
    requires i < |chunks|
    ensures Listed(chunks[..i + 1], key) <==> Listed(chunks[..i], key) || chunks[i].key == key
  {
    assert forall r :: 0 <= r < i ==> chunks[..i + 1][r] == chunks[..i][r];
    assert chunks[..i + 1][i] == chunks[i];
  }

  method IndexChannels(results: seq<Result>) returns (index: map<string, seq<Channel>>)
    ensures forall key :: ChannelsAt(index, key) == ChannelsOf(results, |results|, key)
  {
    index := map[];
    for r := 0 to |results|
      invariant forall key :: ChannelsAt(index, key) == ChannelsOf(results, r, key)
    {
      var chunks, channel := results[r].chunks, results[r].channel;
      for i := 0 to |chunks|
        invariant forall key ::
          ChannelsAt(index, key) == AddChannel(ChannelsOf(results, r, key), channel, Listed(chunks[..i], key))
      {
        forall key ensures Listed(chunks[..i + 1], key) <==> Listed(chunks[..i], key) || chunks[i].key == key {
          ListedStep(chunks, i, key);
        }
        var key := chunks[i].key;
        if channel !in ChannelsAt(index, key) {
          index := index[key := ChannelsAt(index, key) + [channel]];
        }
      }
      assert chunks[..|chunks|] == chunks;
    }
  }

  ghost predicate ScoresAre(scores: map<string, real>, total: string -> real, listed: string -> bool) {
    && (forall key :: key in scores <==> listed(key))
    && (forall key :: total(key) == if key in scores then scores[key] else 0.0)
  }

  lemma ListedBefore(results: seq<Result>, r: nat, key: string)
    requires r < |results|
    ensures ListedSomewhere(results[..r + 1], key) <==>
              ListedSomewhere(results[..r], key) || Listed(results[r].chunks, key)
  {
    assert forall c :: 0 <= c < r ==> results[..r + 1][c] == results[..r][c];
    assert results[..r + 1][r] == results[r];
  }

  /** The reciprocal-rank scores of all listed keys. */
  method Scores(results: seq<Result>, weights: Weights, k: nat) returns (scores: map<string, real>)
    requires k > 0
    ensures ScoresAre(scores, key => FusedScore(results, weights, k, key), key => ListedSomewhere(results, key))
  {
    scores := map[];
    for r := 0 to |results|
      invariant forall key :: key in scores <==> ListedSomewhere(results[..r], key)
      invariant forall key :: ScoreSum(results, r, weights, k, key) == if key in scores then scores[key] else 0.0
    {
      var weight, chunks := WeightOf(weights, results[r].channel), results[r].chunks;
      for rank := 0 to |chunks|
        invariant forall key :: key in scores <==> ListedSomewhere(results[..r], key) || Listed(chunks[..rank], key)
        invariant forall key :: ScoreSum(results, r, weights, k, key) + RankSum(chunks, rank, weight, k, key) ==
                                if key in scores then scores[key] else 0.0
      {
        var key := chunks[rank].key;
        forall other ensures Listed(chunks[..rank + 1], other) <==> Listed(chunks[..rank], other) || key == other {
          ListedStep(chunks, rank, other);
        }
        scores := scores[key := (if key in scores then scores[key] else 0.0) + Worth(weight, k, rank)];
      }
      assert chunks[..|chunks|] == chunks;
      forall key ensures ListedSomewhere(results[..r + 1], key) <==>
                           ListedSomewhere(results[..r], key) || Listed(chunks, key) {
        ListedBefore(results, r, key);
      }
    }
    assert results[..|results|] == results;
  }

  function Truncate(chunks: seq<Chunk>, limit: int): seq<Chunk> {
    if limit > 0 && |chunks| > limit then chunks[..limit] else chunks
  }

  function Attributed(c: Chunk, results: seq<Result>): Chunk {
    var channels := ChannelsOf(results, |results|, c.key);
    if channels == [] then c else c.(channel := Some(channels[0]))
  }

  ghost function Rescored(c: Chunk, results: seq<Result>, weights: Weights, k: nat): Chunk
    requires k > 0
  {
    if ListedSomewhere(results, c.key) then c.(score := FusedScore(results, weights, k, c.key)) else c
  }

  ghost predicate AllAttributed(chunks: seq<Chunk>, a: seq<Chunk>, results: seq<Result>) {
    |a| == |chunks| && forall i :: 0 <= i < |a| ==> a[i] == Attributed(chunks[i], results)
  }

  ghost predicate AllRescored(chunks: seq<Chunk>, s: seq<Chunk>, results: seq<Result>, weights: Weights, k: nat)
    requires k > 0
  {
    |s| == |chunks| && forall i :: 0 <= i < |s| ==>
      s[i] == Rescored(Attributed(chunks[i], results), results, weights, k)
  }

  ghost predicate Fused(chunks: seq<Chunk>, results: seq<Result>, weights: Weights, k: nat, limit: int,
                        fused: seq<Chunk>)
    requires k > 0
  {
    exists scored :: AllRescored(chunks, scored, results, weights, k) && fused == Truncate(Sort(scored, ByScore), limit)
  }

  method Fusion(chunks: seq<Chunk>, results: seq<Result>, weights: Weights, k: nat, limit: int)
      returns (fused: seq<Chunk>)
    requires k > 0
    ensures chunks == [] || results == [] ==> fused == chunks
    ensures chunks != [] && |results| == 1 ==>
              exists a :: AllAttributed(chunks, a, results) && fused == Truncate(a, limit)
    ensures chunks != [] && |results| > 1 ==> Fused(chunks, results, weights, k, limit, fused)
  {
    hide Sort, FusedScore, ChannelsOf;
    if |chunks| == 0 || |results| == 0 {
      return chunks;
    }
    var channelIndex := IndexChannels(results);
    fused := chunks;
    for i := 0 to |chunks|
      invariant |fused| == |chunks|
      invariant forall j :: 0 <= j < i ==> fused[j] == Attributed(chunks[j], results)
      invariant forall j :: i <= j < |chunks| ==> fused[j] == chunks[j]
    {
      var channels := ChannelsAt(channelIndex, fused[i].key);
      if |channels| > 0 {
        fused := fused[i := fused[i].(channel := Some(channels[0]))];
      }
    }
    assert AllAttributed(chunks, fused, results);
    if |results| == 1 {
      return Truncate(fused, limit);
    }
    var scores := Scores(results, weights, k);
    for i := 0 to |chunks|
      invariant |fused| == |chunks|
      invariant forall j :: 0 <= j < i ==> fused[j] == Rescored(Attributed(chunks[j], results), results, weights, k)
      invariant forall j :: i <= j < |chunks| ==> fused[j] == Attributed(chunks[j], results)
    {
      if fused[i].key in scores {
        fused := fused[i := fused[i].(score := scores[fused[i].key])];
      }
    }
    assert AllRescored(chunks, fused, results, weights, k);
    fused := Truncate(Sort(fused, ByScore), limit);
  }

  // ----- What the fused list promises -----

  lemma {:induction false} InsertKeepsDistinct(x: Chunk, s: seq<Chunk>)
    requires DistinctKeys(s, KeyOf) && forall i :: 0 <= i < |s| ==> s[i].key != x.key
    ensures DistinctKeys(Insert(x, s, ByScore), KeyOf)
  {
    if s != [] && ByScore(s[0], x) {
      var rest := Insert(x, s[1..], ByScore);
      InsertKeepsDistinct(x, s[1..]);
      InsertPermutes(x, s[1..], ByScore);
      forall j | 0 <= j < |rest| ensures rest[j].key != s[0].key {
        assert rest[j] in multiset(rest);
        assert rest[j] == x || rest[j] in s[1..];
      }
    }
  }

  lemma {:induction false} SortKeepsDistinct(s: seq<Chunk>)
    requires DistinctKeys(s, KeyOf)
    ensures DistinctKeys(Sort(s, ByScore), KeyOf)
  {
    if s != [] {
      SortKeepsDistinct(s[1..]);
      var rest := Sort(s[1..], ByScore);
      SortMembers(s[1..], ByScore);
      forall i | 0 <= i < |rest| ensures rest[i].key != s[0].key { assert rest[i] in s[1..]; }
      InsertKeepsDistinct(s[0], rest);
    }
  }

  /** Distinct keys stay distinct and scores never increase down the list. */
  /** `c` is the input `o`, which, if it is listed, has its fused score and the first channel that lists it. */
  ghost predicate IsFusedFrom(c: Chunk, o: Chunk, results: seq<Result>, weights: Weights, k: nat)
    requires k > 0
  {
    && c.key == o.key && c.text == o.text
    && if ListedSomewhere(results, o.key) then
         c.score == FusedScore(results, weights, k, o.key) && c.channel.Some? &&
         FirstToList(results, o.key, c.channel.value)
       else c == o
  }

  lemma {:induction false} RescoredIsFused(o: Chunk, results: seq<Result>, weights: Weights, k: nat)
    requires k > 0
    ensures IsFusedFrom(Rescored(Attributed(o, results), results, weights, k), o, results, weights, k)
  {
    hide FusedScore, FirstToList;
    FirstChannelOf(results, |results|, o.key);
  }

  lemma {:induction false} FusedIsRanked(chunks: seq<Chunk>, results: seq<Result>, weights: Weights, k: nat,
                                         limit: int, fused: seq<Chunk>)
    requires k > 0 && DistinctKeys(chunks, KeyOf) && Fused(chunks, results, weights, k, limit, fused)
    ensures DistinctKeys(fused, KeyOf)
    ensures forall i, j :: 0 <= i < j < |fused| ==> fused[i].score >= fused[j].score
    ensures |fused| == if 0 < limit < |chunks| then limit else |chunks|
    ensures forall c :: c in fused ==> exists o :: o in chunks && IsFusedFrom(c, o, results, weights, k)
  {
    hide IsFusedFrom, Sort, FusedScore, ChannelsOf;
    var scored: seq<Chunk> :| AllRescored(chunks, scored, results, weights, k) &&
      fused == Truncate(Sort(scored, ByScore), limit);
    assert DistinctKeys(scored, KeyOf);
    SortKeepsDistinct(scored);
    SortSorted(scored, ByScore);
    SortPermutes(scored, ByScore);
    SortMembers(scored, ByScore);
    forall c | c in fused
      ensures exists o :: o in chunks && IsFusedFrom(c, o, results, weights, k)
    {
      assert c in scored;
      var i :| 0 <= i < |scored| && scored[i] == c;
      assert chunks[i] in chunks;
      RescoredIsFused(chunks[i], results, weights, k);
    }
  }

  /** Equal scores keep the order in which deduplication left them. */
  lemma TiesKeepOrder(scored: seq<Chunk>, score: real)
    ensures Filter(Sort(scored, ByScore), (c: Chunk) => c.score == score) ==
              Filter(scored, (c: Chunk) => c.score == score)
  {
    SortStable(scored, ByScore, (c: Chunk) => c.score == score);
  }

  /** `key` stands at position `i` of the list. */
  predicate Stands(chunks: seq<Chunk>, key: string, i: int) {
    0 <= i < |chunks| && chunks[i].key == key
  }

  lemma HigherScoreComesFirst(s: seq<Chunk>, limit: int, a: Chunk, b: Chunk, j: nat)
    requires SortedBy(s, ByScore) && a in s && a.score > b.score
    requires Stands(Truncate(s, limit), b.key, j) && s[j] == b
    ensures exists i :: 0 <= i < j && Truncate(s, limit)[i] == a
  {
    var i :| 0 <= i < |s| && s[i] == a;
  }

  /** Two listed keys: whenever the one with the lower fused score is returned, the other is returned before it. */
  lemma {:induction false} FusionRespectsScores(chunks: seq<Chunk>, results: seq<Result>, weights: Weights, k: nat,
                                                limit: int, fused: seq<Chunk>, a: string, b: string, j: nat)
    requires k > 0 && Fused(chunks, results, weights, k, limit, fused)
    requires Listed(chunks, a) && ListedSomewhere(results, a) && ListedSomewhere(results, b)
    requires FusedScore(results, weights, k, a) > FusedScore(results, weights, k, b)
    requires Stands(fused, b, j)
    ensures exists i :: i < j && Stands(fused, a, i)
  {
    hide FusedScore, ScoreSum, Sort, ChannelsOf;
    var scored: seq<Chunk> :| AllRescored(chunks, scored, results, weights, k) &&
      fused == Truncate(Sort(scored, ByScore), limit);
    SortSorted(scored, ByScore);
    SortMembers(scored, ByScore);
    var p :| 0 <= p < |chunks| && chunks[p].key == a;
    assert scored[p].key == a && scored[p].score == FusedScore(results, weights, k, a);
    assert Sort(scored, ByScore)[j] in scored;
    var q :| 0 <= q < |scored| && scored[q] == Sort(scored, ByScore)[j];
    assert scored[q].key == b && scored[q].score == FusedScore(results, weights, k, b);
    HigherScoreComesFirst(Sort(scored, ByScore), limit, scored[p], scored[q], j);
    var i :| 0 <= i < j && fused[i] == scored[p];
    assert Stands(fused, a, i);
  }

  lemma {:induction false} FlattenLists(results: seq<Result>, key: string)
    ensures Listed(Flatten(results), key) <==> ListedSomewhere(results, key)
  {
    if results != [] {
      var n := |results| - 1;
      var front, last := Flatten(results[..n]), results[n].chunks;
      FlattenLists(results[..n], key);
      ListedBefore(results, n, key);
      assert results[..n + 1] == results;
      assert forall r :: 0 <= r < |front| ==> (front + last)[r] == front[r];
      assert forall r :: 0 <= r < |last| ==> (front + last)[|front| + r] == last[r];
    }
  }

  /** Deduplication loses no key. */
  lemma DedupKeepsKeys(chunks: seq<Chunk>, results: seq<Result>, d: seq<Chunk>, key: string)
    requires results != [] && Deduped(DedupInput(chunks, results), KeyOf, ScoreOf, d)
    ensures Listed(d, key) <==> ListedSomewhere(results, key)
    ensures DistinctKeys(d, KeyOf)
  {
    var ordered := Sort(results, ByPriority);
    SortMembers(results, ByPriority);
    FlattenLists(ordered, key);
    KeysInOrderAre(Flatten(ordered), KeyOf);
    DedupedIsUnique(Flatten(ordered), KeyOf, ScoreOf, d, d);
    SameListing(results, ordered, key);
    assert Listed(d, key) <==> key in KeysInOrder(Flatten(ordered), KeyOf);
    assert Listed(Flatten(ordered), key) <==> HasKey(Flatten(ordered), KeyOf, key);
  }

  lemma SameListing(a: seq<Result>, b: seq<Result>, key: string)
    requires forall r :: r in a <==> r in b
    ensures ListedSomewhere(a, key) <==> ListedSomewhere(b, key)
  {
    forall c | 0 <= c < |a| && Listed(a[c].chunks, key) ensures ListedSomewhere(b, key) { assert a[c] in b; }
    forall c | 0 <= c < |b| && Listed(b[c].chunks, key) ensures ListedSomewhere(a, key) { assert b[c] in a; }
  }

  /** The two post-processors one after the other, on what the channels returned, for any weights. */
  lemma {:induction false} PipelineRespectsScores(results: seq<Result>, weights: Weights, k: nat, limit: int,
                                                  d: seq<Chunk>, fused: seq<Chunk>, a: string, b: string, j: nat)
    requires |results| > 1 && k > 0
    requires Deduped(DedupInput(Flatten(results), results), KeyOf, ScoreOf, d)
    requires Fused(d, results, weights, k, limit, fused)
    requires ListedSomewhere(results, a) && FusedScore(results, weights, k, a) > FusedScore(results, weights, k, b)
    requires Stands(fused, b, j)
    ensures exists i :: i < j && Stands(fused, a, i)
    ensures DistinctKeys(fused, KeyOf)
  {
    hide FusedScore, ScoreSum, Sort, ChannelsOf, Deduped, KeysInOrder;
    DedupKeepsKeys(Flatten(results), results, d, a);
    DedupKeepsKeys(Flatten(results), results, d, b);
    FusedIsRanked(d, results, weights, k, limit, fused);
    assert fused[j] in fused;
    var o :| o in d && IsFusedFrom(fused[j], o, results, weights, k);
    assert o.key == b;
    FusionRespectsScores(d, results, weights, k, limit, fused, a, b, j);
  }

  /**
   In particular: evidence that does no worse in every channel, and better in one that has weight, comes
   first, and is never cut off while the other stays.
   */
  lemma {:induction false} PipelineRespectsDominance(results: seq<Result>, weights: Weights, k: nat, limit: int,
                                                     d: seq<Chunk>, fused: seq<Chunk>, a: string, b: string, j: nat)
    requires |results| > 1 && k > 0 && NonNegative(weights)
    requires Deduped(DedupInput(Flatten(results), results), KeyOf, ScoreOf, d)
    requires Fused(d, results, weights, k, limit, fused)
    requires NoWorseAnywhere(results, a, b) && BetterSomewhere(results, |results|, weights, a, b)
    requires Stands(fused, b, j)
    ensures exists i :: i < j && Stands(fused, a, i)
  {
    hide FusedScore, Deduped, Fused;
    FusionDominance(results, weights, k, a, b);
    assert ListedSomewhere(results, a);
    PipelineRespectsScores(results, weights, k, limit, d, fused, a, b, j);
  }

  // ----- What a rank is worth -----

  /** `key` is hit at rank `r` of channel `c` and nowhere else. */
  ghost predicate HitOnce(results: seq<Result>, key: string, c: nat, r: nat) {
    && c < |results| && r < |results[c].chunks|
    && forall d, q :: 0 <= d < |results| && 0 <= q < |results[d].chunks| ==>
         (results[d].chunks[q].key == key <==> d == c && q == r)
  }

  /** `key` is hit at rank `r` of channel `c`, at rank `q` of another channel `d`, and nowhere else. */
  ghost predicate HitTwice(results: seq<Result>, key: string, c: nat, r: nat, d: nat, q: nat) {
    && c < d < |results| && r < |results[c].chunks| && q < |results[d].chunks|
    && forall e, p :: 0 <= e < |results| && 0 <= p < |results[e].chunks| ==>
         (results[e].chunks[p].key == key <==> (e == c && p == r) || (e == d && p == q))
  }

  /** One hit at rank r of a channel with weight w is worth w / (k + r + 1). */
  lemma OneHitIsWorth(results: seq<Result>, weights: Weights, k: nat, key: string, c: nat, r: nat, w: real)
    requires k > 0 && HitOnce(results, key, c, r) && HasWeight(weights, results[c].channel, w)
    ensures FusedScore(results, weights, k, key) * (k + r + 1) as real == w
  {
    OneHitScore(results, |results|, weights, k, key, c, r);
  }

  lemma {:induction false} TwiceAgainstOnce(w: real, k: nat, r: nat)
    requires k > 0 && w > 0.0
    ensures Worth(w, k, r) + Worth(w, k, r) > Worth(w, k, 0) <==> r < k + 1
    ensures Worth(w, k, r) + Worth(w, k, r) < Worth(w, k, 0) <==> r > k + 1
  {
    var x, y := (k + r + 1) as real, (k + 1) as real;
    hide Worth;
    WorthTimes(w, k, r);
    WorthTimes(w, k, 0);
    var a, b := Worth(w, k, r), Worth(w, k, 0);
    assert (2.0 * a - b) * (x * y) == w * (2.0 * y - x) by {
      assert (2.0 * a - b) * (x * y) == 2.0 * (a * x) * y - (b * y) * x;
    }
    Sign(2.0 * a - b, x * y, w, 2.0 * y - x);
  }

  lemma WorthTimes(w: real, k: nat, r: nat)
    requires k > 0
    ensures Worth(w, k, r) * (k + r + 1) as real == w
  {
  }

  /** Two products with positive factors that are equal have their other factors on the same side of 0. */
  lemma Sign(u: real, x: real, w: real, v: real)
    requires x > 0.0 && w > 0.0 && u * x == w * v
    ensures u > 0.0 <==> v > 0.0
    ensures u < 0.0 <==> v < 0.0
  {
    if v > 0.0 {
      assert w * v > 0.0;
    } else if v < 0.0 {
      assert w * v < 0.0;
    }
    if u > 0.0 {
      assert u * x > 0.0;
    } else if u < 0.0 {
      assert u * x < 0.0;
    }
  }

  lemma {:induction false} AgreementScores(results: seq<Result>, weights: Weights, k: nat, a: string, c: nat,
                                           b: string, c1: nat, c2: nat, r: nat, w: real)
    requires k > 0 && w > 0.0 && HitOnce(results, a, c, 0) && HitTwice(results, b, c1, r, c2, r)
    requires HasWeight(weights, results[c].channel, w)
    requires HasWeight(weights, results[c1].channel, w) && HasWeight(weights, results[c2].channel, w)
    ensures FusedScore(results, weights, k, b) > FusedScore(results, weights, k, a) <==> r < k + 1
    ensures FusedScore(results, weights, k, b) < FusedScore(results, weights, k, a) <==> r > k + 1
    ensures ListedSomewhere(results, a) && ListedSomewhere(results, b)
  {
    OneHitScore(results, |results|, weights, k, a, c, 0);
    TwoHitsScore(results, |results|, weights, k, b, c1, r, c2, r);
    TwiceAgainstOnce(w, k, r);
    hide ScoreSum, Worth, WeightOf;
    assert results[c].chunks[0].key == a && results[c1].chunks[r].key == b;
    assert Listed(results[c].chunks, a) && Listed(results[c1].chunks, b);
  }

  /**
   The trade-off that fusion is for, behind deduplication: under equal weights evidence that two channels
   list at rank r comes before the top hit of one channel, and is never cut off while that stays, if
   r < k + 1; if r > k + 1 it is the other way round.
   */
  lemma {:induction false} AgreementBeatsTopHitIff(results: seq<Result>, weights: Weights, k: nat, limit: int,
                                                   d: seq<Chunk>, fused: seq<Chunk>, a: string, c: nat, b: string,
                                                   c1: nat, c2: nat, r: nat, w: real)
    requires |results| > 1 && k > 0 && w > 0.0
    requires Deduped(DedupInput(Flatten(results), results), KeyOf, ScoreOf, d)
    requires Fused(d, results, weights, k, limit, fused)
    requires HitOnce(results, a, c, 0) && HitTwice(results, b, c1, r, c2, r)
    requires HasWeight(weights, results[c].channel, w)
    requires HasWeight(weights, results[c1].channel, w) && HasWeight(weights, results[c2].channel, w)
    ensures FusedScore(results, weights, k, b) > FusedScore(results, weights, k, a) <==> r < k + 1
    ensures forall j: nat :: r < k + 1 && Stands(fused, a, j) ==> exists i :: i < j && Stands(fused, b, i)
    ensures forall j: nat :: r > k + 1 && Stands(fused, b, j) ==> exists i :: i < j && Stands(fused, a, i)
  {
    AgreementScores(results, weights, k, a, c, b, c1, c2, r, w);
    hide FusedScore, Deduped, Fused, HitOnce, HitTwice, Flatten, ListedSomewhere, HasWeight;
    forall j: nat | r < k + 1 && Stands(fused, a, j) ensures exists i :: i < j && Stands(fused, b, i) {
      PipelineRespectsScores(results, weights, k, limit, d, fused, b, a, j);
    }
    forall j: nat | r > k + 1 && Stands(fused, b, j) ensures exists i :: i < j && Stands(fused, a, i) {
      PipelineRespectsScores(results, weights, k, limit, d, fused, a, b, j);
    }
  }
}
