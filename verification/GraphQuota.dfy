/**
 How much graph evidence one search returns (`internal/biz/rag/graph.go`):

 - `graphScopeQuotas` and `capGraphChunks`, the two budgets and what they cut;
 - `mergeGraphChunks`, one best chunk for each ID, collected from a map and sorted;
 - the part of `GraphSearchChannel.Search` that combines them.

 The order in which Go walks a map is arbitrary. The method takes the keys in any order, and the result
 is proved not to depend on it.
 */
module GraphQuota {
  import opened Basics
  import opened RetrievalScope
  import opened BestByKey
  import opened StableSort
  import Text

  datatype Chunk = Chunk(id: string, score: real, text: string)

  function IdOf(c: Chunk): string { c.id }

  function ChunkScore(c: Chunk): real { c.score }

  function GraphScopeQuotas(topK: int, directed: bool, ratio: real): (q: (int, int))
    ensures topK >= 1 ==> q.0 + q.1 == topK && q.0 >= 1 && q.1 >= 0
    ensures topK >= 1 ==> (q.1 > 0 <==> directed && ratio > 0.0 && topK >= 2)
    ensures q.1 > 1 ==> q.1 as real - 0.5 <= topK as real * ratio
    ensures q.1 > 0 && q.0 > 1 ==> topK as real * ratio < q.1 as real + 0.5
    ensures topK <= 0 ==> q == (0, 0)
  {
    if topK <= 0 then (0, 0)
    else if !directed then (topK, 0)
    else
      var q := SplitScopeQuota(Some(Scope(true, 0.0, [], [], ["supplement"])), topK, ratio);
      (q.primary, q.supplement)
  }

  /** A limit of 0 or less caps nothing. */
  function CapGraphChunks(chunks: seq<Chunk>, limit: int): seq<Chunk> {
    if limit <= 0 || |chunks| <= limit then chunks else chunks[..limit]
  }

  /** Higher score first, then the lower ID. */
  predicate Before(a: Chunk, b: Chunk) {
    if a.score == b.score then Text.StringLess(a.id, b.id) else a.score > b.score
  }

  /** One best chunk for each ID of `l`, and nothing else. */
  ghost predicate BestOfEach(l: seq<Chunk>, byID: map<string, Chunk>) {
    && (forall id :: id in byID <==> HasKey(l, IdOf, id))
    && (forall id :: id in byID ==> byID[id].id == id && Best(l, IdOf, ChunkScore, byID[id]))
  }

  /** The merged list: sorted, with the best chunk of each ID. */
  ghost predicate Merged(l: seq<Chunk>, r: seq<Chunk>) {
    && SortedBy(r, Before)
    && DistinctKeys(r, IdOf)
    && (forall id :: HasKey(r, IdOf, id) <==> HasKey(l, IdOf, id))
    && (forall i :: 0 <= i < |r| ==> Best(l, IdOf, ChunkScore, r[i]))
  }

  lemma NoChunks()
    ensures BestOfEach([], map[])
  {
  }

  lemma {:induction false} BestOfEachStep(l: seq<Chunk>, byID: map<string, Chunk>, c: Chunk)
    requires BestOfEach(l, byID)
    ensures BestOfEach(l + [c], if c.id !in byID || c.score > byID[c.id].score then byID[c.id := c] else byID)
  {
    hide Best;
    var r := if c.id !in byID || c.score > byID[c.id].score then byID[c.id := c] else byID;
    forall id ensures HasKey(l + [c], IdOf, id) <==> HasKey(l, IdOf, id) || c.id == id { HasKeyStep(l, IdOf, c, id); }
    forall id | id in r ensures Best(l + [c], IdOf, ChunkScore, r[id]) {
      if id != c.id || (id in byID && c.score <= byID[id].score) {
        OldBestStays(l, IdOf, ChunkScore, c, byID[id]);
      } else if id in byID {
        BetterReplaces(l, IdOf, ChunkScore, c, byID[id]);
      } else {
        assert !HasKey(l, IdOf, c.id);
        NewItemIsBest(l, IdOf, ChunkScore, c);
      }
    }
  }

  lemma ConcatStep(groups: seq<seq<Chunk>>, g: nat)
    requires g < |groups|
    ensures Concat(groups[..g + 1]) == Concat(groups[..g]) + groups[g]
    ensures Concat(groups[..0]) == [] && groups[..|groups|] == groups
  {
    assert groups[..g + 1][..g] == groups[..g];
  }

  lemma OneMore(before: seq<Chunk>, group: seq<Chunk>, i: nat)
    requires i < |group|
    ensures before + group[..i] + [group[i]] == before + group[..i + 1]
  {
  }

  method BestById(groups: seq<seq<Chunk>>) returns (byID: map<string, Chunk>)
    ensures BestOfEach(Concat(groups), byID)
  {
    hide *;
    byID := map[];
    NoChunks();
    NothingConcatenated(groups);
    for g := 0 to |groups|
      invariant BestOfEach(Concat(groups[..g]), byID)
    {
      var group := groups[g];
      ghost var before := Concat(groups[..g]);
      assert before + group[..0] == before;
      for i := 0 to |group|
        invariant BestOfEach(before + group[..i], byID)
      {
        BestOfEachStep(before + group[..i], byID, group[i]);
        OneMore(before, group, i);
        var chunk := group[i];
        if chunk.id !in byID || chunk.score > byID[chunk.id].score {
          byID := byID[chunk.id := chunk];
        }
      }
      assert group[..|group|] == group;
      ConcatStep(groups, g);
    }
  }

  lemma NothingConcatenated(groups: seq<seq<Chunk>>)
    ensures Concat(groups[..0]) == [] && groups[..|groups|] == groups
  {
  }

  /** `chunks` holds the chunks of the keys that are no longer `left`. */
  ghost predicate Collected(byID: map<string, Chunk>, left: set<string>, chunks: seq<Chunk>) {
    && left <= byID.Keys
    && DistinctKeys(chunks, IdOf)
    && (forall id :: HasKey(chunks, IdOf, id) <==> id in byID && id !in left)
    && (forall i :: 0 <= i < |chunks| ==> chunks[i].id in byID && chunks[i] == byID[chunks[i].id])
  }

  lemma {:induction false} CollectStep(l: seq<Chunk>, byID: map<string, Chunk>, left: set<string>, chunks: seq<Chunk>,
                                       id: string)
    requires BestOfEach(l, byID) && Collected(byID, left, chunks) && id in left
    ensures Collected(byID, left - {id}, chunks + [byID[id]])
  {
    hide Best;
    forall k ensures HasKey(chunks + [byID[id]], IdOf, k) <==> HasKey(chunks, IdOf, k) || k == id {
      HasKeyStep(chunks, IdOf, byID[id], k);
    }
    assert !HasKey(chunks, IdOf, id);
    assert forall i :: 0 <= i < |chunks| ==> IdOf(chunks[i]) != id;
  }

  lemma NothingCollected(byID: map<string, Chunk>)
    ensures Collected(byID, byID.Keys, [])
  {
  }

  lemma {:induction false} AllCollected(l: seq<Chunk>, byID: map<string, Chunk>, chunks: seq<Chunk>)
    requires BestOfEach(l, byID) && Collected(byID, {}, chunks)
    ensures Merged(l, Sort(chunks, Before))
  {
    hide Best, Sort;
    SortedIsMerged(l, chunks);
  }

  lemma MergedNothing()
    ensures Merged(Concat([]), [])
  {
  }

  /** Walking the map in whatever order, then sorting. */
  method MergeGraphChunks(groups: seq<seq<Chunk>>) returns (chunks: seq<Chunk>)
    ensures Merged(Concat(groups), chunks)
  {
    hide *;
    if |groups| == 0 {
      MergedNothing();
      return [];
    }
    var byID := BestById(groups);
    var left := byID.Keys;
    chunks := [];
    NothingCollected(byID);
    while left != {}
      invariant Collected(byID, left, chunks)
      invariant left <= byID.Keys
      decreases |left|
    {
      var id :| id in left;
      CollectStep(Concat(groups), byID, left, chunks, id);
      left := left - {id};
      chunks := chunks + [byID[id]];
    }
    AllCollected(Concat(groups), byID, chunks);
    chunks := Sort(chunks, Before);
  }

  lemma BeforeOrders()
    ensures StrictWeakOrder(Before)
    ensures forall a: Chunk, b: Chunk :: a.id != b.id ==> Before(a, b) || Before(b, a)
  {
    forall a: Chunk, b: Chunk, c: Chunk
      ensures !Before(a, a)
      ensures Before(a, b) ==> !Before(b, a)
      ensures !Before(a, b) && !Before(b, c) ==> !Before(a, c)
      ensures a.id != b.id ==> Before(a, b) || Before(b, a)
    {
      Text.StringLessIrreflexive(a.id);
      Text.StringLessTotal(a.id, b.id);
      Text.StringLessTotal(b.id, c.id);
      if Text.StringLess(a.id, b.id) && Text.StringLess(b.id, a.id) { Text.StringLessTransitive(a.id, b.id, a.id); }
      if Text.StringLess(c.id, b.id) && Text.StringLess(b.id, a.id) {
        Text.StringLessTransitive(c.id, b.id, a.id);
        if Text.StringLess(a.id, c.id) { Text.StringLessTransitive(a.id, c.id, a.id); }
      }
    }
  }

  lemma {:induction false} SortKeepsDistinctIds(s: seq<Chunk>)
    requires DistinctKeys(s, IdOf)
    ensures DistinctKeys(Sort(s, Before), IdOf)
  {
    if s != [] {
      SortKeepsDistinctIds(s[1..]);
      SortMembers(s[1..], Before);
      var rest := Sort(s[1..], Before);
      forall i | 0 <= i < |rest| ensures IdOf(rest[i]) != IdOf(s[0]) { assert rest[i] in s[1..]; }
      InsertKeepsDistinctIds(s[0], rest);
    }
  }

  lemma {:induction false} InsertKeepsDistinctIds(x: Chunk, s: seq<Chunk>)
    requires DistinctKeys(s, IdOf) && forall i :: 0 <= i < |s| ==> IdOf(s[i]) != IdOf(x)
    ensures DistinctKeys(Insert(x, s, Before), IdOf)
  {
    if s != [] && Before(s[0], x) {
      var rest := Insert(x, s[1..], Before);
      InsertKeepsDistinctIds(x, s[1..]);
      InsertPermutes(x, s[1..], Before);
      forall j | 0 <= j < |rest| ensures IdOf(rest[j]) != IdOf(s[0]) {
        assert rest[j] in multiset(rest);
        assert rest[j] == x || rest[j] in s[1..];
      }
    }
  }

  lemma {:induction false} SortedIsMerged(l: seq<Chunk>, s: seq<Chunk>)
    requires DistinctKeys(s, IdOf) && forall id :: HasKey(s, IdOf, id) <==> HasKey(l, IdOf, id)
    requires forall i :: 0 <= i < |s| ==> Best(l, IdOf, ChunkScore, s[i])
    ensures Merged(l, Sort(s, Before))
  {
    hide Best, Sort, Before;
    var r := Sort(s, Before);
    BeforeOrders();
    SortSorted(s, Before);
    SortKeepsDistinctIds(s);
    SortMembers(s, Before);
    SameKeys(s, r);
    forall i | 0 <= i < |r| ensures Best(l, IdOf, ChunkScore, r[i]) {
      assert r[i] in s;
    }
  }

  lemma SameKeys(s: seq<Chunk>, r: seq<Chunk>)
    requires forall c :: c in s <==> c in r
    ensures forall id :: HasKey(s, IdOf, id) <==> HasKey(r, IdOf, id)
  {
    forall i | 0 <= i < |s| ensures HasKey(r, IdOf, IdOf(s[i])) { assert s[i] in r; }
    forall i | 0 <= i < |r| ensures HasKey(s, IdOf, IdOf(r[i])) { assert r[i] in s; }
  }

  // ----- The merged list does not depend on the order in which the map is walked -----

  lemma BestIsUnique(l: seq<Chunk>, a: Chunk, b: Chunk)
    requires Best(l, IdOf, ChunkScore, a) && Best(l, IdOf, ChunkScore, b) && a.id == b.id
    ensures a == b
  {
    var p :| BestAt(l, IdOf, ChunkScore, p) && l[p] == a;
    var q :| BestAt(l, IdOf, ChunkScore, q) && l[q] == b;
    assert IdOf(l[p]) == IdOf(l[q]);
  }

  lemma {:induction false} MergedMembers(l: seq<Chunk>, r: seq<Chunk>, s: seq<Chunk>, c: Chunk)
    requires Merged(l, r) && Merged(l, s) && c in r
    ensures c in s
  {
    hide Best, SortedBy;
    var i :| 0 <= i < |r| && r[i] == c;
    assert HasKey(r, IdOf, c.id);
    assert HasKey(s, IdOf, c.id);
    var j :| 0 <= j < |s| && IdOf(s[j]) == c.id;
    BestIsUnique(l, r[i], s[j]);
  }

  lemma SortedTail(r: seq<Chunk>)
    requires r != [] && SortedBy(r, Before) && DistinctKeys(r, IdOf)
    ensures SortedBy(r[1..], Before) && DistinctKeys(r[1..], IdOf) && r[0] !in r[1..]
    ensures forall c :: c in r <==> c == r[0] || c in r[1..]
  {
    assert r == [r[0]] + r[1..];
  }

  lemma {:induction false} HeadIsFirst(r: seq<Chunk>, c: Chunk)
    requires r != [] && SortedBy(r, Before) && DistinctKeys(r, IdOf) && c in r
    ensures c == r[0] || Before(r[0], c)
  {
    hide Before;
    BeforeOrders();
    var i :| 0 <= i < |r| && r[i] == c;
    if i > 0 { assert IdOf(r[0]) != IdOf(r[i]); }
  }

  lemma {:induction false} DistinctPartIsShorter(l: seq<Chunk>, r: seq<Chunk>)
    requires DistinctKeys(r, IdOf) && forall i :: 0 <= i < |r| ==> r[i] in l
    ensures |r| <= |l|
  {
    if r != [] {
      var c, front := r[|r| - 1], r[..|r| - 1];
      var p :| 0 <= p < |l| && l[p] == c;
      var rest := l[..p] + l[p + 1..];
      forall i | 0 <= i < |front| ensures front[i] in rest {
        assert IdOf(r[i]) != IdOf(c);
        var q :| 0 <= q < |l| && l[q] == r[i];
        assert rest[if q < p then q else q - 1] == r[i];
      }
      DistinctPartIsShorter(rest, front);
    }
  }

  lemma {:induction false} SortedSame(r: seq<Chunk>, s: seq<Chunk>)
    requires |r| == |s| && (forall c :: c in r <==> c in s)
    requires SortedBy(r, Before) && SortedBy(s, Before) && DistinctKeys(r, IdOf) && DistinctKeys(s, IdOf)
    ensures r == s
  {
    hide Before;
    if r != [] {
      assert r[0] in s && s[0] in r;
      HeadIsFirst(r, s[0]);
      HeadIsFirst(s, r[0]);
      BeforeOrders();
      SortedTail(r);
      SortedTail(s);
      SortedSame(r[1..], s[1..]);
    }
  }

  /** Whatever order the map is walked in, the merged list is the same. */
  lemma MergedIsUnique(l: seq<Chunk>, r: seq<Chunk>, s: seq<Chunk>)
    requires Merged(l, r) && Merged(l, s)
    ensures r == s
  {
    forall c ensures c in r <==> c in s {
      if c in r { MergedMembers(l, r, s, c); }
      if c in s { MergedMembers(l, s, r, c); }
    }
    DistinctPartIsShorter(r, s);
    DistinctPartIsShorter(s, r);
    SortedSame(r, s);
  }

  // ----- How many chunks a search returns -----

  /** What a search with this evidence returns. */
  ghost predicate SearchResult(matched: seq<Chunk>, unmatched: seq<Chunk>, topK: int, directed: bool, ratio: real,
                               r: seq<Chunk>) {
    var q := GraphScopeQuotas(topK, directed, ratio);
    if directed then Merged(Concat([CapGraphChunks(matched, q.0), CapGraphChunks(unmatched, q.1)]), r)
    else r == CapGraphChunks(matched, q.0)
  }

  /** The tail of `GraphSearchChannel.Search`. */
  method CombineEvidence(matched: seq<Chunk>, unmatched: seq<Chunk>, topK: int, directed: bool, ratio: real)
      returns (chunks: seq<Chunk>)
    ensures SearchResult(matched, unmatched, if topK <= 0 then 10 else topK, directed, ratio, chunks)
  {
    var k := topK;
    if k <= 0 {
      k := 10;
    }
    var q := GraphScopeQuotas(k, directed, ratio);
    chunks := CapGraphChunks(matched, q.0);
    if directed {
      chunks := MergeGraphChunks([chunks, CapGraphChunks(unmatched, q.1)]);
    }
  }

  /** The first `n` of `chunks`, or all if there are fewer. */
  ghost predicate IsFirst(part: seq<Chunk>, chunks: seq<Chunk>, n: nat) {
    part <= chunks && |part| == if n < |chunks| then n else |chunks|
  }

  /** `r` holds the best chunk of each ID among `l`, by falling score, equal scores by ID. */
  ghost predicate IsRanking(l: seq<Chunk>, r: seq<Chunk>) {
    && (forall c :: c in r <==> Best(l, IdOf, ChunkScore, c))
    && (forall i, j :: 0 <= i < j < |r| ==>
          r[i].score > r[j].score || (r[i].score == r[j].score && Text.StringLess(r[i].id, r[j].id)))
  }

  lemma MergedIsRanking(l: seq<Chunk>, r: seq<Chunk>)
    requires Merged(l, r)
    ensures IsRanking(l, r)
  {
    forall i, j | 0 <= i < j < |r|
      ensures r[i].score > r[j].score || (r[i].score == r[j].score && Text.StringLess(r[i].id, r[j].id))
    {
      assert IdOf(r[i]) != IdOf(r[j]);
      BeforeOrders();
      assert Before(r[i], r[j]);
    }
    forall c | Best(l, IdOf, ChunkScore, c) ensures c in r { BestIsMerged(l, r, c); }
  }

  lemma BestIsMerged(l: seq<Chunk>, r: seq<Chunk>, c: Chunk)
    requires Merged(l, r) && Best(l, IdOf, ChunkScore, c)
    ensures c in r
  {
    var p :| BestAt(l, IdOf, ChunkScore, p) && l[p] == c;
    assert HasKey(l, IdOf, c.id) by { assert IdOf(l[p]) == c.id; }
    var i :| 0 <= i < |r| && IdOf(r[i]) == c.id;
    BestIsUnique(l, r[i], c);
  }

  /**
   What a search returns: the first `topK` matched chunks; under a directed scope the best chunk of each ID among
   the first matched and the first unmatched ones, where `supplement` of the budget is left to the unmatched, and a
   supplement of 0 cuts nothing off.
   */
  lemma {:induction false} SearchReturns(matched: seq<Chunk>, unmatched: seq<Chunk>, topK: int, directed: bool,
                                         ratio: real, r: seq<Chunk>)
      returns (supplement: nat, a: seq<Chunk>, b: seq<Chunk>)
    requires topK >= 1 && SearchResult(matched, unmatched, topK, directed, ratio, r)
    ensures !directed ==> IsFirst(r, matched, topK)
    ensures supplement < topK && (supplement > 0 <==> directed && ratio > 0.0 && topK >= 2)
    ensures directed ==> IsRanking(a + b, r) && IsFirst(a, matched, topK - supplement)
    ensures directed ==> IsFirst(b, unmatched, if supplement > 0 then supplement else |unmatched|)
  {
    hide Merged, IsRanking;
    var q := GraphScopeQuotas(topK, directed, ratio);
    supplement, a, b := q.1, CapGraphChunks(matched, q.0), CapGraphChunks(unmatched, q.1);
    if directed {
      ConcatTwo(a, b);
      MergedIsRanking(a + b, r);
    }
  }

  lemma MergedIsNoLonger(l: seq<Chunk>, r: seq<Chunk>)
    requires Merged(l, r)
    ensures |r| <= |l|
  {
    forall i | 0 <= i < |r| ensures r[i] in l {
      assert Best(l, IdOf, ChunkScore, r[i]);
      var p :| BestAt(l, IdOf, ChunkScore, p) && l[p] == r[i];
    }
    DistinctPartIsShorter(l, r);
  }

  lemma ConcatTwo(a: seq<Chunk>, b: seq<Chunk>)
    ensures Concat([a, b]) == a + b
  {
    assert [a, b][..1] == [a] && [a][..0] == [];
    assert Concat([a]) == a;
  }

  function Repeat(c: char, n: nat): string {
    seq(n, _ => c)
  }

  /** `n` chunks with different IDs. */
  function Flood(n: nat): seq<Chunk> {
    seq(n, i requires 0 <= i => Chunk(Repeat('x', i), 0.0, ""))
  }

  lemma FloodIsKept(n: nat)
    ensures exists r :: Merged(Flood(n), r) && |r| == n
  {
    var l := Flood(n);
    forall i, j | 0 <= i < j < n ensures IdOf(l[i]) != IdOf(l[j]) {
      assert |l[i].id| == i && |l[j].id| == j;
    }
    forall i | 0 <= i < n ensures Best(l, IdOf, ChunkScore, l[i]) {
      assert BestAt(l, IdOf, ChunkScore, i);
    }
    SortedIsMerged(l, l);
    SortPermutes(l, Before);
  }

  /** The configurations in which both caps are real. */
  predicate Capped(topK: int, directed: bool, ratio: real) {
    !directed || (topK >= 2 && ratio > 0.0)
  }

  lemma CappedResult(matched: seq<Chunk>, unmatched: seq<Chunk>, topK: int, directed: bool, ratio: real, r: seq<Chunk>)
    requires topK >= 1 && Capped(topK, directed, ratio) && SearchResult(matched, unmatched, topK, directed, ratio, r)
    ensures |r| <= topK
  {
    if directed {
      var q := GraphScopeQuotas(topK, directed, ratio);
      var a, b := CapGraphChunks(matched, q.0), CapGraphChunks(unmatched, q.1);
      ConcatTwo(a, b);
      MergedIsNoLonger(a + b, r);
    }
  }

  lemma UncappedResult(topK: int, ratio: real)
    requires topK >= 1 && !Capped(topK, true, ratio)
    ensures exists r :: SearchResult([], Flood(topK + 1), topK, true, ratio, r) && |r| > topK
  {
    var q := GraphScopeQuotas(topK, true, ratio);
    ConcatTwo([], Flood(topK + 1));
    assert CapGraphChunks(Flood(topK + 1), q.1) == Flood(topK + 1);
    assert CapGraphChunks([], q.0) == [];
    assert [] + Flood(topK + 1) == Flood(topK + 1);
    FloodIsKept(topK + 1);
    var r :| Merged(Flood(topK + 1), r) && |r| == topK + 1;
    assert SearchResult([], Flood(topK + 1), topK, true, ratio, r);
  }

  /** A graph search never returns more than it was asked for, exactly when both caps are real. */
  lemma {:induction false} SearchIsBoundedIff(topK: int, directed: bool, ratio: real)
    requires topK >= 1
    ensures (forall matched, unmatched, r ::
               SearchResult(matched, unmatched, topK, directed, ratio, r) ==> |r| <= topK) <==>
            Capped(topK, directed, ratio)
  {
    hide SearchResult, Merged;
    if Capped(topK, directed, ratio) {
      forall matched, unmatched, r | SearchResult(matched, unmatched, topK, directed, ratio, r) ensures |r| <= topK {
        CappedResult(matched, unmatched, topK, directed, ratio, r);
      }
    } else {
      UncappedResult(topK, ratio);
      assert directed;
    }
  }
}
