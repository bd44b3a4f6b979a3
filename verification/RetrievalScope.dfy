/**
 The knowledge-base range of one retrieval request: the shared scope of
 `internal/biz/rag/retrieval_scope.go`, and the per-channel computations it replaces
 (`internal/biz/rag/graph.go`, `retrieve_multi.go`, `search_channels.go`).
 */
module RetrievalScope {
  import opened Basics
  import opened BestByKey
  import opened Intents
  import opened StableSort
  import Text

  datatype Scope = Scope(directed: bool, topScore: real, intents: seq<NodeScore>,
                         targets: seq<string>, supplement: seq<string>)

  // ----- Collection names -----

  /** The trimmed non-blank names, each once, by first occurrence. */
  function UniqueTrimmed(names: seq<string>): seq<string> {
    if names == [] then []
    else
      var before, name := UniqueTrimmed(names[..|names| - 1]), Text.Trim(names[|names| - 1]);
      if name == "" || name in before then before else before + [name]
  }

  lemma {:induction false} UniqueTrimmedAre(names: seq<string>)
    ensures forall c :: c in UniqueTrimmed(names) <==>
              c != "" && exists i :: 0 <= i < |names| && Text.Trim(names[i]) == c
    ensures forall i, j :: 0 <= i < j < |UniqueTrimmed(names)| ==> UniqueTrimmed(names)[i] != UniqueTrimmed(names)[j]
  {
    if names != [] {
      var front := names[..|names| - 1];
      UniqueTrimmedAre(front);
      forall c ensures c in UniqueTrimmed(names) <==>
                         c != "" && exists i :: 0 <= i < |names| && Text.Trim(names[i]) == c {
        assert Text.Trim(names[|names| - 1]) == c ==> exists i :: 0 <= i < |names| && Text.Trim(names[i]) == c;
        assert forall i :: 0 <= i < |front| ==> front[i] == names[i];
      }
    }
  }

  lemma UniqueTrimmedStep(names: seq<string>, i: nat)
    requires i < |names|
    ensures var before, name := UniqueTrimmed(names[..i]), Text.Trim(names[i]);
            UniqueTrimmed(names[..i + 1]) == if name == "" || name in before then before else before + [name]
  {
    assert names[..i + 1][..i] == names[..i];
  }

  /** The loop that the listing of knowledge bases and the listing of a node's collections share. */
  method CollectUniqueTrimmed(names: seq<string>) returns (result: seq<string>)
    ensures result == UniqueTrimmed(names)
  {
    var seen: set<string> := {};
    result := [];
    for i := 0 to |names|
      invariant result == UniqueTrimmed(names[..i])
      invariant forall c :: c in seen <==> c in result
    {
      UniqueTrimmedStep(names, i);
      var name := Text.Trim(names[i]);
      if name != "" && name !in seen {
        seen := seen + {name};
        result := result + [name];
      }
    }
    assert names[..|names|] == names;
  }

  /** The collections a node searches: the list, or the single name that older rows have instead. */
  function Collections(node: IntentNode): seq<string> {
    var listed := UniqueTrimmed(node.collectionNames);
    if listed != [] then listed
    else if Text.Trim(node.collectionName) != "" then [Text.Trim(node.collectionName)]
    else []
  }

  method EffectiveCollectionNames(node: IntentNode) returns (result: seq<string>)
    ensures result == Collections(node)
  {
    result := CollectUniqueTrimmed(node.collectionNames);
    if |result| == 0 {
      var fallback := Text.Trim(node.collectionName);
      if fallback != "" {
        result := result + [fallback];
      }
    }
  }

  /** What a node searches: its listed names, trimmed; only if all are blank, its older single name. */
  lemma CollectionsAre(node: IntentNode, c: string)
    ensures c in Collections(node) <==>
              c != "" && if exists i :: 0 <= i < |node.collectionNames| && Text.Trim(node.collectionNames[i]) != ""
                         then exists i :: 0 <= i < |node.collectionNames| && Text.Trim(node.collectionNames[i]) == c
                         else Text.Trim(node.collectionName) == c
  {
    UniqueTrimmedAre(node.collectionNames);
    if UniqueTrimmed(node.collectionNames) != [] {
      assert UniqueTrimmed(node.collectionNames)[0] in UniqueTrimmed(node.collectionNames);
    }
    if i :| 0 <= i < |node.collectionNames| && Text.Trim(node.collectionNames[i]) != "" {
      assert Text.Trim(node.collectionNames[i]) in UniqueTrimmed(node.collectionNames);
    }
  }

  // ----- Candidates -----

  predicate Eligible(ns: NodeScore, minScore: real) {
    ns.node.knowledgeBase && ns.score >= minScore && Collections(ns.node) != []
  }

  function AllScores(subIntents: seq<SubQuestionIntent>): seq<NodeScore> {
    if subIntents == [] then []
    else AllScores(subIntents[..|subIntents| - 1]) + subIntents[|subIntents| - 1].nodeScores
  }

  function EligibleOf(l: seq<NodeScore>, minScore: real): seq<NodeScore> {
    if l == [] then []
    else
      EligibleOf(l[..|l| - 1], minScore) +
      if Eligible(l[|l| - 1], minScore) then [l[|l| - 1]] else []
  }

  function Candidates(subIntents: seq<SubQuestionIntent>, minScore: real): seq<NodeScore> {
    EligibleOf(AllScores(subIntents), minScore)
  }

  lemma EligibleStep(l: seq<NodeScore>, scores: seq<NodeScore>, i: nat, minScore: real)
    requires i < |scores|
    ensures var before := EligibleOf(l + scores[..i], minScore);
            EligibleOf(l + scores[..i + 1], minScore) ==
              if Eligible(scores[i], minScore) then before + [scores[i]] else before
  {
    assert (l + scores[..i + 1])[..|l| + i] == l + scores[..i];
  }

  lemma AllScoresStep(subIntents: seq<SubQuestionIntent>, r: nat)
    requires r < |subIntents|
    ensures AllScores(subIntents[..r + 1]) == AllScores(subIntents[..r]) + subIntents[r].nodeScores
    ensures AllScores(subIntents[..r]) + subIntents[r].nodeScores[..0] == AllScores(subIntents[..r])
    ensures subIntents[r].nodeScores[..|subIntents[r].nodeScores|] == subIntents[r].nodeScores
  {
    assert subIntents[..r + 1][..r] == subIntents[..r];
  }

  lemma NoScores(subIntents: seq<SubQuestionIntent>, minScore: real)
    ensures EligibleOf(AllScores(subIntents[..0]), minScore) == []
    ensures subIntents[..|subIntents|] == subIntents
  {
  }

  lemma {:induction false} EligibleConcat(a: seq<NodeScore>, b: seq<NodeScore>, minScore: real)
    ensures EligibleOf(a + b, minScore) == EligibleOf(a, minScore) + EligibleOf(b, minScore)
  {
    if b == [] {
      assert a + b == a;
    } else {
      assert (a + b)[..|a + b| - 1] == a + b[..|b| - 1];
      EligibleConcat(a, b[..|b| - 1], minScore);
    }
  }

  /**
   The candidates, built up from nothing: each scored node that is bound to knowledge bases, reaches the threshold
   and has a collection to search comes after those before it, and no other node is one.
   */
  lemma {:induction false} CandidatesAre(subIntents: seq<SubQuestionIntent>, question: string, scores: seq<NodeScore>,
                                         last: NodeScore, minScore: real)
    ensures Candidates([], minScore) == []
    ensures Candidates(subIntents + [SubQuestionIntent(question, [])], minScore) == Candidates(subIntents, minScore)
    ensures Candidates(subIntents + [SubQuestionIntent(question, scores + [last])], minScore) ==
              Candidates(subIntents + [SubQuestionIntent(question, scores)], minScore) +
              if last.node.knowledgeBase && last.score >= minScore && exists c :: c in Collections(last.node)
              then [last] else []
  {
    hide Collections;
    AllScoresSnoc(subIntents, SubQuestionIntent(question, []));
    AllScoresSnoc(subIntents, SubQuestionIntent(question, scores));
    AllScoresSnoc(subIntents, SubQuestionIntent(question, scores + [last]));
    assert AllScores(subIntents) + [] == AllScores(subIntents);
    assert AllScores(subIntents) + (scores + [last]) == AllScores(subIntents) + scores + [last];
    EligibleConcat(AllScores(subIntents) + scores, [last], minScore);
    if Collections(last.node) != [] { assert Collections(last.node)[0] in Collections(last.node); }
    assert [last][..0] == [];
  }

  lemma AllScoresSnoc(subIntents: seq<SubQuestionIntent>, more: SubQuestionIntent)
    ensures AllScores(subIntents + [more]) == AllScores(subIntents) + more.nodeScores
  {
    assert (subIntents + [more])[..|subIntents|] == subIntents;
  }

  function Join(names: seq<string>): string {
    if names == [] then "" else if |names| == 1 then names[0] else names[0] + "," + Join(names[1..])
  }

  /** What candidates are deduplicated by: the node ID, or the joined collection names without one. */
  function ScopeKey(ns: NodeScore): string {
    if Text.IsBlank(ns.node.id) then Join(Collections(ns.node)) else Text.Trim(ns.node.id)
  }

  function ScoreOf(ns: NodeScore): real { ns.score }

  lemma {:induction false} JoinIsInjective(a: seq<string>, b: seq<string>)
    requires forall i :: 0 <= i < |a| ==> a[i] != "" && ',' !in a[i]
    requires forall i :: 0 <= i < |b| ==> b[i] != "" && ',' !in b[i]
    ensures Join(a) == Join(b) <==> a == b
  {
    if a != [] && b != [] && Join(a) == Join(b) {
      assert Join(a) == a[0] + if |a| == 1 then "" else "," + Join(a[1..]);
      assert Join(b) == b[0] + if |b| == 1 then "" else "," + Join(b[1..]);
      FirstName(a[0], if |a| == 1 then "" else "," + Join(a[1..]), b[0], if |b| == 1 then "" else "," + Join(b[1..]));
      JoinIsInjective(a[1..], b[1..]);
      assert |a| > 1 && |b| > 1 ==> ("," + Join(a[1..]))[1..] == ("," + Join(b[1..]))[1..];
      assert a == [a[0]] + a[1..] && b == [b[0]] + b[1..];
    }
  }

  lemma FirstName(a: string, x: string, b: string, y: string)
    requires a + x == b + y && ',' !in a && ',' !in b
    requires (x == "" || x[0] == ',') && (y == "" || y[0] == ',')
    ensures a == b && x == y
  {
    var s := a + x;
    assert forall i :: |a| == i < |s| ==> s[i] == ',';
    assert forall i :: |b| == i < |s| ==> s[i] == ',';
    assert forall i :: 0 <= i < |a| ==> s[i] == a[i];
    assert forall i :: 0 <= i < |b| ==> s[i] == b[i];
    assert (a + x)[..|a|] == a && (b + y)[..|b|] == b && (a + x)[|a|..] == x && (b + y)[|b|..] == y;
  }

  /**
   Which candidates are one: those with the same ID; without IDs, those with the same collections, unless a name
   holds the comma they are joined with.
   */
  lemma {:induction false} KeysTellApart(a: NodeScore, b: NodeScore)
    ensures !Text.IsBlank(a.node.id) && !Text.IsBlank(b.node.id) ==>
              (ScopeKey(a) == ScopeKey(b) <==> Text.Trim(a.node.id) == Text.Trim(b.node.id))
    ensures Text.IsBlank(a.node.id) && Text.IsBlank(b.node.id) &&
            (forall c :: c in Collections(a.node) || c in Collections(b.node) ==> ',' !in c) ==>
              (ScopeKey(a) == ScopeKey(b) <==> Collections(a.node) == Collections(b.node))
  {
    hide Collections, Text.Trim, Join;
    forall c | c in Collections(a.node) ensures c != "" { CollectionsAreTrimmed(a.node, c); }
    forall c | c in Collections(b.node) ensures c != "" { CollectionsAreTrimmed(b.node, c); }
    if forall c :: c in Collections(a.node) || c in Collections(b.node) ==> ',' !in c {
      assert forall i :: 0 <= i < |Collections(a.node)| ==> Collections(a.node)[i] in Collections(a.node);
      assert forall i :: 0 <= i < |Collections(b.node)| ==> Collections(b.node)[i] in Collections(b.node);
      JoinIsInjective(Collections(a.node), Collections(b.node));
    }
  }

  /** The loop keeps the order of the keys and the best node for each of them. */
  ghost predicate Tracks(order: seq<string>, byID: map<string, NodeScore>, d: seq<NodeScore>) {
    && |order| == |d|
    && (forall i :: 0 <= i < |d| ==> order[i] == ScopeKey(d[i]) && order[i] in byID && byID[order[i]] == d[i])
    && (forall id :: id in byID ==> id in order)
  }

  lemma TracksUpdate(order: seq<string>, byID: map<string, NodeScore>, d: seq<NodeScore>, at: nat, c: NodeScore)
    requires Tracks(order, byID, d) && DistinctKeys(d, ScopeKey) && at < |d| && ScopeKey(c) == order[at]
    ensures Tracks(order, byID[ScopeKey(c) := c], d[at := c])
  {
  }

  method EffectiveScopeIntents(subIntents: seq<SubQuestionIntent>, minScore: real) returns (intents: seq<NodeScore>)
    ensures Deduped(Candidates(subIntents, minScore), ScopeKey, ScoreOf, intents)
  {
    hide Deduped, AllScores, EligibleOf;
    var byID: map<string, NodeScore> := map[];
    var order: seq<string> := [];
    ghost var d: seq<NodeScore> := [];
    NothingSeen(ScopeKey, ScoreOf);
    NoScores(subIntents, minScore);
    for r := 0 to |subIntents|
      invariant Deduped(EligibleOf(AllScores(subIntents[..r]), minScore), ScopeKey, ScoreOf, d)
      invariant Tracks(order, byID, d)
    {
      var scores := subIntents[r].nodeScores;
      ghost var before := AllScores(subIntents[..r]);
      AllScoresStep(subIntents, r);
      for i := 0 to |scores|
        invariant Deduped(EligibleOf(before + scores[..i], minScore), ScopeKey, ScoreOf, d)
        invariant Tracks(order, byID, d)
      {
        EligibleStep(before, scores, i, minScore);
        if Eligible(scores[i], minScore) {
          ghost var l := EligibleOf(before + scores[..i], minScore);
          order, byID, d := Track(l, order, byID, d, scores[i]);
        }
      }
    }
    intents := [];
    for i := 0 to |order|
      invariant intents == d[..i]
    {
      intents := intents + [byID[order[i]]];
    }
    assert d[..|d|] == d;
  }

  /** One candidate: its key is appended to `order` the first time, and the better node is kept. */
  method Track(ghost l: seq<NodeScore>, order0: seq<string>, byID0: map<string, NodeScore>, ghost d0: seq<NodeScore>,
               nodeScore: NodeScore)
      returns (order: seq<string>, byID: map<string, NodeScore>, ghost d: seq<NodeScore>)
    requires Deduped(l, ScopeKey, ScoreOf, d0) && Tracks(order0, byID0, d0)
    ensures Deduped(l + [nodeScore], ScopeKey, ScoreOf, d) && Tracks(order, byID, d)
  {
    hide Deduped, KeysInOrder, Best;
    order, byID, d := order0, byID0, d0;
    var id := Text.Trim(nodeScore.node.id);
    if id == "" {
      id := Join(Collections(nodeScore.node));
    }
    assert id == ScopeKey(nodeScore);
    DedupedIsUnique(l, ScopeKey, ScoreOf, d0, d0);
    if id !in byID0 {
      FreshKey(l, ScopeKey, ScoreOf, d0, nodeScore);
      order := order + [id];
      byID := byID[id := nodeScore];
      d := d + [nodeScore];
    } else {
      ghost var at :| 0 <= at < |order0| && order0[at] == id;
      SeenKey(l, ScopeKey, ScoreOf, d0, nodeScore, at);
      if nodeScore.score > byID0[id].score {
        TracksUpdate(order0, byID0, d0, at, nodeScore);
        byID := byID[id := nodeScore];
        d := d[at := nodeScore];
      }
    }
  }

  // ----- The shared scope -----

  /** The highest score, never below 0. */
  function Top(l: seq<NodeScore>): real {
    if l == [] then 0.0
    else
      var before, last := Top(l[..|l| - 1]), l[|l| - 1].score;
      if last > before then last else before
  }

  predicate Binds(l: seq<NodeScore>, collection: string) {
    exists i :: 0 <= i < |l| && collection in Collections(l[i].node)
  }

  /** The active collections that some intent is bound to, in their own order. */
  function Targets(active: seq<string>, l: seq<NodeScore>): seq<string> {
    Filter(active, (c: string) => Binds(l, c))
  }

  function Supplement(active: seq<string>, l: seq<NodeScore>): seq<string> {
    Filter(active, (c: string) => !Binds(l, c))
  }

  function ScopeFor(active: seq<string>, intents: seq<NodeScore>, confidence: real): Scope {
    if intents == [] || Top(intents) < confidence || Targets(active, intents) == [] then
      Scope(false, Top(intents), [], active, [])
    else Scope(true, Top(intents), intents, Targets(active, intents), Supplement(active, intents))
  }

  /** `scope` is what resolving this request gives. */
  ghost predicate Resolved(active: seq<string>, l: seq<NodeScore>, confidence: real, scope: Scope) {
    exists intents :: Deduped(l, ScopeKey, ScoreOf, intents) && scope == ScopeFor(active, intents, confidence)
  }

  lemma TopStep(l: seq<NodeScore>, i: nat)
    requires i < |l|
    ensures Top(l[..i + 1]) == if l[i].score > Top(l[..i]) then l[i].score else Top(l[..i])
  {
    assert l[..i + 1][..i] == l[..i];
  }

  method TopScore(l: seq<NodeScore>) returns (top: real)
    ensures top == Top(l)
  {
    top := 0.0;
    for i := 0 to |l|
      invariant top == Top(l[..i])
    {
      TopStep(l, i);
      if l[i].score > top {
        top := l[i].score;
      }
    }
    assert l[..|l|] == l;
  }

  lemma CollectionsAreTrimmed(node: IntentNode, c: string)
    requires c in Collections(node)
    ensures c != "" && Text.Trim(c) == c
  {
    UniqueTrimmedAre(node.collectionNames);
    Text.TrimTwice(node.collectionName);
    if c in UniqueTrimmed(node.collectionNames) {
      var i :| 0 <= i < |node.collectionNames| && Text.Trim(node.collectionNames[i]) == c;
      Text.TrimTwice(node.collectionNames[i]);
    }
  }

  /** The collections of one node, trimmed once more, are added to the set. */
  method AddBindings(bound: set<string>, node: IntentNode) returns (r: set<string>)
    ensures forall c :: c in r <==> c in bound || c in Collections(node)
  {
    hide Collections, Text.Trim;
    var names := EffectiveCollectionNames(node);
    forall c | c in Collections(node) ensures c != "" && Text.Trim(c) == c { CollectionsAreTrimmed(node, c); }
    r := bound;
    for j := 0 to |names|
      invariant forall c :: c in r <==> c in bound || c in names[..j]
    {
      var collection := Text.Trim(names[j]);
      assert names[j] in Collections(node);
      if collection != "" {
        r := r + {collection};
      }
    }
    assert names[..|names|] == names;
  }

  /** The set of collections that a list of intents is bound to. */
  method BoundCollections(l: seq<NodeScore>) returns (bound: set<string>)
    ensures forall c :: c in bound <==> Binds(l, c)
  {
    hide Binds, Top, Collections;
    bound := {};
    NothingBound();
    assert l[..0] == [] && l[..|l|] == l;
    for i := 0 to |l|
      invariant forall c :: c in bound <==> Binds(l[..i], c)
    {
      bound := AddBindings(bound, l[i].node);
      Append(l[..i], l[i]);
      assert l[..i + 1] == l[..i] + [l[i]];
    }
  }

  method Resolve(knowledgeBases: seq<string>, subIntents: seq<SubQuestionIntent>, confidence: real, minScore: real)
      returns (scope: Scope)
    ensures Resolved(UniqueTrimmed(knowledgeBases), Candidates(subIntents, minScore), confidence, scope)
  {
    hide Deduped, Candidates, Top, Binds, Filter;
    var active := CollectUniqueTrimmed(knowledgeBases);
    var intents := EffectiveScopeIntents(subIntents, minScore);
    var topScore := TopScore(intents);
    if |intents| == 0 || topScore < confidence {
      return Scope(false, topScore, [], active, []);
    }
    var bound := BoundCollections(intents);
    var targets, supplement := Split(active, intents, bound);
    if |targets| == 0 {
      return Scope(false, topScore, [], active, []);
    }
    return Scope(true, topScore, intents, targets, supplement);
  }

  /** The two passes over the active collections. */
  method Split(active: seq<string>, ghost l: seq<NodeScore>, bound: set<string>)
      returns (targets: seq<string>, supplement: seq<string>)
    requires forall c :: c in bound <==> Binds(l, c)
    ensures targets == Targets(active, l) && supplement == Supplement(active, l)
  {
    hide Binds, Filter;
    NothingFiltered(active, l);
    targets := [];
    for i := 0 to |active|
      invariant targets == Targets(active[..i], l)
    {
      FilterStep(active, (c: string) => Binds(l, c), i);
      if active[i] in bound {
        targets := targets + [active[i]];
      }
    }
    supplement := [];
    for i := 0 to |active|
      invariant supplement == Supplement(active[..i], l)
    {
      FilterStep(active, (c: string) => !Binds(l, c), i);
      TargetsAre(active, l, active[i]);
      if active[i] !in targets {
        supplement := supplement + [active[i]];
      }
    }
  }

  lemma NothingFiltered(active: seq<string>, l: seq<NodeScore>)
    ensures Targets(active[..0], l) == [] && Supplement(active[..0], l) == [] && active[..|active|] == active
  {
  }

  lemma {:induction false} FilterAre(s: seq<string>, p: string -> bool, c: string)
    ensures c in Filter(s, p) <==> c in s && p(c)
  {
    if s != [] {
      FilterAre(s[1..], p, c);
      assert s == [s[0]] + s[1..];
    }
  }

  lemma TargetsAre(active: seq<string>, l: seq<NodeScore>, c: string)
    ensures c in Targets(active, l) <==> c in active && Binds(l, c)
    ensures c in Supplement(active, l) <==> c in active && !Binds(l, c)
  {
    FilterAre(active, (x: string) => Binds(l, x), c);
    FilterAre(active, (x: string) => !Binds(l, x), c);
  }

  lemma {:induction false} FilterSplits(s: seq<string>, p: string -> bool, q: string -> bool)
    requires forall c :: q(c) == !p(c)
    ensures multiset(Filter(s, p)) + multiset(Filter(s, q)) == multiset(s)
  {
    if s != [] {
      FilterSplits(s[1..], p, q);
      assert s == [s[0]] + s[1..];
    }
  }

  lemma {:induction false} TargetsAndSupplement(active: seq<string>, l: seq<NodeScore>)
    ensures multiset(Targets(active, l)) + multiset(Supplement(active, l)) == multiset(active)
    ensures Targets(active, l) == Filter(active, (c: string) => c in Targets(active, l))
    ensures Supplement(active, l) == Filter(active, (c: string) => c !in Targets(active, l))
  {
    hide Binds, Filter;
    var targets := Targets(active, l);
    var p, q := (c: string) => Binds(l, c), (c: string) => !Binds(l, c);
    FilterSplits(active, p, q);
    forall c | c in active ensures p(c) <==> c in targets { TargetsAre(active, l, c); }
    FilterExt(active, p, (c: string) => c in targets);
    FilterExt(active, q, (c: string) => c !in targets);
  }

  /**
   Targets and supplement are the active collections, split without changing their order. A directed
   scope has a target; any other has them all.
   */
  lemma {:induction false} ScopePartitionsActive(active: seq<string>, l: seq<NodeScore>, confidence: real, scope: Scope)
    requires Resolved(active, l, confidence, scope)
    ensures multiset(scope.targets) + multiset(scope.supplement) == multiset(active)
    ensures scope.targets == Filter(active, (c: string) => c in scope.targets)
    ensures scope.supplement == Filter(active, (c: string) => c !in scope.targets)
    ensures scope.directed ==> scope.targets != []
    ensures !scope.directed ==> scope.targets == active && scope.intents == []
  {
    hide Binds, Filter, Deduped, Targets, Supplement;
    var intents :| Deduped(l, ScopeKey, ScoreOf, intents) && scope == ScopeFor(active, intents, confidence);
    TargetsAndSupplement(active, intents);
    FilterAll(active);
  }

  lemma FilterAll(s: seq<string>)
    ensures Filter(s, (c: string) => c in s) == s
    ensures Filter(s, (c: string) => c !in s) == []
  {
    KeepAll(s, (c: string) => c in s);
    KeepNone(s, (c: string) => c !in s);
  }

  lemma {:induction false} KeepAll(s: seq<string>, p: string -> bool)
    requires forall c :: c in s ==> p(c)
    ensures Filter(s, p) == s
  {
    if s != [] { KeepAll(s[1..], p); }
  }

  lemma {:induction false} KeepNone(s: seq<string>, p: string -> bool)
    requires forall c :: c in s ==> !p(c)
    ensures Filter(s, p) == []
  {
    if s != [] { KeepNone(s[1..], p); }
  }

  // ----- The graph channel's own computation -----

  /** What `GraphSearchChannel.resolveScope` answers when no shared scope was given. */
  function GraphScope(active: seq<string>, l: seq<NodeScore>, confidence: real): (bool, seq<string>) {
    if active == [] || Top(l) < confidence || Targets(active, l) == [] then (false, active)
    else (true, Targets(active, l))
  }

  method GraphResolveScope(subIntents: seq<SubQuestionIntent>, active: seq<string>, confidence: real, minScore: real)
      returns (directed: bool, targets: seq<string>)
    ensures (directed, targets) == GraphScope(active, Candidates(subIntents, minScore), confidence)
  {
    hide Top, Binds, Filter, EligibleOf, AllScores;
    if |active| == 0 {
      return false, active;
    }
    var maxScore, bound: set<string> := 0.0, {};
    NoScores(subIntents, minScore);
    NothingBound();
    for r := 0 to |subIntents|
      invariant maxScore == Top(EligibleOf(AllScores(subIntents[..r]), minScore))
      invariant forall c :: c in bound <==> Binds(EligibleOf(AllScores(subIntents[..r]), minScore), c)
    {
      var scores := subIntents[r].nodeScores;
      ghost var before := AllScores(subIntents[..r]);
      AllScoresStep(subIntents, r);
      for i := 0 to |scores|
        invariant maxScore == Top(EligibleOf(before + scores[..i], minScore))
        invariant forall c :: c in bound <==> Binds(EligibleOf(before + scores[..i], minScore), c)
      {
        EligibleStep(before, scores, i, minScore);
        if !scores[i].node.knowledgeBase || scores[i].score < minScore {
          continue;
        }
        var collections := EffectiveCollectionNames(scores[i].node);
        if |collections| == 0 {
          continue;
        }
        Append(EligibleOf(before + scores[..i], minScore), scores[i]);
        if scores[i].score > maxScore {
          maxScore := scores[i].score;
        }
        bound := bound + AsSet(collections);
      }
    }
    if maxScore < confidence {
      return false, active;
    }
    var supplement;
    targets, supplement := Split(active, Candidates(subIntents, minScore), bound);
    if |targets| == 0 {
      return false, active;
    }
    return true, targets;
  }

  lemma NothingBound()
    ensures Top([]) == 0.0
    ensures forall c :: !Binds([], c)
  {
  }

  lemma Append(l: seq<NodeScore>, ns: NodeScore)
    ensures Top(l + [ns]) == if ns.score > Top(l) then ns.score else Top(l)
    ensures forall c :: Binds(l + [ns], c) <==> Binds(l, c) || c in Collections(ns.node)
  {
    assert (l + [ns])[..|l|] == l;
    forall c ensures Binds(l + [ns], c) <==> Binds(l, c) || c in Collections(ns.node) {
      assert forall i :: 0 <= i < |l| ==> (l + [ns])[i] == l[i];
      assert (l + [ns])[|l|] == ns;
    }
  }

  // ----- The two agree -----

  /** `t` is an upper bound of the scores and of 0, and one of them. */
  ghost predicate IsTop(l: seq<NodeScore>, t: real) {
    && t >= 0.0
    && (forall i :: 0 <= i < |l| ==> l[i].score <= t)
    && (t == 0.0 || exists i :: 0 <= i < |l| && l[i].score == t)
  }

  lemma {:induction false} TopIsTop(l: seq<NodeScore>)
    ensures IsTop(l, Top(l))
  {
    if l != [] {
      var front := l[..|l| - 1];
      TopIsTop(front);
      if Top(front) != 0.0 && Top(l) == Top(front) {
        var i :| 0 <= i < |front| && front[i].score == Top(front);
        assert l[i].score == Top(l);
      }
      forall i | 0 <= i < |l| ensures l[i].score <= Top(l) { if i < |front| { assert front[i].score <= Top(front); } }
    }
  }

  lemma DedupedIsPart(l: seq<NodeScore>, d: seq<NodeScore>, i: nat)
    requires Deduped(l, ScopeKey, ScoreOf, d) && i < |d|
    ensures d[i] in l
  {
    var p :| BestAt(l, ScopeKey, ScoreOf, p) && l[p] == d[i];
  }

  /** Deduplication does not change the highest score. */
  lemma {:induction false} SameTop(l: seq<NodeScore>, d: seq<NodeScore>)
    requires Deduped(l, ScopeKey, ScoreOf, d)
    ensures Top(d) == Top(l)
  {
    hide Deduped, Top;
    TopIsTop(l);
    TopIsTop(d);
    if Top(d) != 0.0 {
      var i :| 0 <= i < |d| && d[i].score == Top(d);
      DedupedIsPart(l, d, i);
    }
    if Top(l) != 0.0 {
      var i :| 0 <= i < |l| && l[i].score == Top(l);
      DedupedCovers(l, ScopeKey, ScoreOf, d, l[i]);
      var j :| 0 <= j < |d| && ScopeKey(d[j]) == ScopeKey(l[i]) && ScoreOf(d[j]) >= ScoreOf(l[i]);
      assert d[j].score <= Top(d);
    }
  }

  lemma {:induction false} DedupedBindsLess(l: seq<NodeScore>, d: seq<NodeScore>, c: string)
    requires Deduped(l, ScopeKey, ScoreOf, d) && Binds(d, c)
    ensures Binds(l, c)
  {
    hide Deduped;
    var i :| 0 <= i < |d| && c in Collections(d[i].node);
    DedupedIsPart(l, d, i);
    var j :| 0 <= j < |l| && l[j] == d[i];
    assert c in Collections(l[j].node);
  }

  /** Some candidate that is the best one for its key is bound to the collection. */
  ghost predicate BestBinds(l: seq<NodeScore>, collection: string) {
    exists p :: BestAt(l, ScopeKey, ScoreOf, p) && collection in Collections(l[p].node)
  }

  lemma {:induction false} DedupedBinds(l: seq<NodeScore>, d: seq<NodeScore>, c: string)
    requires Deduped(l, ScopeKey, ScoreOf, d)
    ensures Binds(d, c) <==> BestBinds(l, c)
  {
    DedupedAre(l, ScopeKey, ScoreOf, d);
    hide Deduped, BestAt;
    if Binds(d, c) {
      var i :| 0 <= i < |d| && c in Collections(d[i].node);
      assert Best(l, ScopeKey, ScoreOf, d[i]);
    }
    if BestBinds(l, c) {
      var p :| BestAt(l, ScopeKey, ScoreOf, p) && c in Collections(l[p].node);
      assert Best(l, ScopeKey, ScoreOf, l[p]);
      var i :| 0 <= i < |d| && d[i] == l[p];
    }
  }

  /**
   When a scope is directed, and to what: some candidate reaches the threshold, which is always so at a threshold of
   0 or less, and the best candidate of some key is bound to an active collection; the targets are all such ones.
   */
  lemma {:induction false} DirectedIff(active: seq<string>, l: seq<NodeScore>, confidence: real, scope: Scope)
    requires Resolved(active, l, confidence, scope)
    ensures scope.directed <==>
              && l != [] && (confidence <= 0.0 || exists i :: 0 <= i < |l| && l[i].score >= confidence)
              && exists c :: c in active && BestBinds(l, c)
    ensures forall c :: c in scope.targets <==> c in active && (scope.directed ==> BestBinds(l, c))
    ensures scope.directed ==> Deduped(l, ScopeKey, ScoreOf, scope.intents)
    ensures IsTop(l, scope.topScore)
  {
    hide Deduped, Top, Binds, BestBinds, Filter;
    var d: seq<NodeScore> :| Deduped(l, ScopeKey, ScoreOf, d) && scope == ScopeFor(active, d, confidence);
    forall c ensures Binds(d, c) <==> BestBinds(l, c) { DedupedBinds(l, d, c); }
    SameTop(l, d);
    TopIsTop(l);
    EmptyDedup(l, d);
    forall c ensures c in Targets(active, d) <==> c in active && Binds(d, c) { TargetsAre(active, d, c); }
    SomeTarget(active, d);
  }

  /** Each active collection that a candidate is bound to has the best candidate of some key bound to it. */
  ghost predicate NothingLost(active: seq<string>, l: seq<NodeScore>) {
    forall c :: c in active && Binds(l, c) ==> BestBinds(l, c)
  }

  /**
   With the same active list and thresholds the shared scope and the graph channel's own scan give the
   same direction and the same targets, exactly when the threshold is not met or the best candidates of
   the keys bind every active collection that any candidate binds.
   */
  lemma {:induction false} ScopesAgreeIff(active: seq<string>, l: seq<NodeScore>, confidence: real, scope: Scope)
    requires Resolved(active, l, confidence, scope)
    ensures (scope.directed, scope.targets) == GraphScope(active, l, confidence) <==>
              Top(l) < confidence || NothingLost(active, l)
    ensures scope.directed ==>
              GraphScope(active, l, confidence).0 && forall c :: c in scope.targets ==> c in Targets(active, l)
  {
    hide Deduped, Top, Binds, BestBinds, Filter;
    var d: seq<NodeScore> :| Deduped(l, ScopeKey, ScoreOf, d) && scope == ScopeFor(active, d, confidence);
    forall c ensures Binds(d, c) <==> BestBinds(l, c) { DedupedBinds(l, d, c); }
    SameTop(l, d);
    EmptyDedup(l, d);
    forall c ensures Binds(d, c) ==> Binds(l, c) { if Binds(d, c) { DedupedBindsLess(l, d, c); } }
    forall c ensures c in Targets(active, d) <==> c in active && Binds(d, c) { TargetsAre(active, d, c); }
    forall c ensures c in Targets(active, l) <==> c in active && Binds(l, c) { TargetsAre(active, l, c); }
    assert Targets(active, d) == Targets(active, l) <==> NothingLost(active, l) by {
      if NothingLost(active, l) {
        FilterExt(active, (c: string) => Binds(d, c), (c: string) => Binds(l, c));
      }
    }
    SomeTarget(active, d);
    SomeTarget(active, l);
  }

  lemma SomeTarget(active: seq<string>, l: seq<NodeScore>)
    ensures Targets(active, l) != [] <==> exists c :: c in active && Binds(l, c)
    ensures |Targets(active, l)| <= |active|
  {
    forall c ensures c in Targets(active, l) <==> c in active && Binds(l, c) { TargetsAre(active, l, c); }
    FilterSplits(active, (c: string) => Binds(l, c), (c: string) => !Binds(l, c));
    if Targets(active, l) != [] { assert Targets(active, l)[0] in Targets(active, l); }
    assert |multiset(Targets(active, l)) + multiset(Supplement(active, l))| == |multiset(active)|;
  }

  lemma EmptyDedup(l: seq<NodeScore>, d: seq<NodeScore>)
    requires Deduped(l, ScopeKey, ScoreOf, d)
    ensures d == [] <==> l == []
    ensures forall c :: !Binds([], c)
  {
    if l != [] { DedupedCovers(l, ScopeKey, ScoreOf, d, l[0]); }
    if d != [] { DedupedIsPart(l, d, 0); }
  }

  /** Candidates with the same key are bound to the same collections. */
  ghost predicate KeyDeterminesCollections(l: seq<NodeScore>) {
    forall i, j :: 0 <= i < |l| && 0 <= j < |l| && ScopeKey(l[i]) == ScopeKey(l[j]) ==>
      Collections(l[i].node) == Collections(l[j].node)
  }

  /** Non-blank node IDs that determine the node. */
  ghost predicate IdDeterminesNode(l: seq<NodeScore>) {
    && (forall i :: 0 <= i < |l| ==> !Text.IsBlank(l[i].node.id))
    && (forall i, j :: 0 <= i < |l| && 0 <= j < |l| && Text.Trim(l[i].node.id) == Text.Trim(l[j].node.id) ==>
          l[i].node == l[j].node)
  }

  lemma {:induction false} KeyKeepsBindings(active: seq<string>, l: seq<NodeScore>, d: seq<NodeScore>)
    requires Deduped(l, ScopeKey, ScoreOf, d) && KeyDeterminesCollections(l)
    ensures NothingLost(active, l)
  {
    hide Deduped, Collections, ScopeKey, BestBinds;
    forall c | c in active && Binds(l, c) ensures BestBinds(l, c) {
      var i :| 0 <= i < |l| && c in Collections(l[i].node);
      DedupedCovers(l, ScopeKey, ScoreOf, d, l[i]);
      var j :| 0 <= j < |d| && ScopeKey(d[j]) == ScopeKey(l[i]) && ScoreOf(d[j]) >= ScoreOf(l[i]);
      DedupedIsPart(l, d, j);
      var k :| 0 <= k < |l| && l[k] == d[j];
      assert Collections(l[k].node) == Collections(l[i].node);
      assert c in Collections(d[j].node);
      DedupedBinds(l, d, c);
    }
  }

  /** The refinement the shared scope is meant to be. */
  lemma {:induction false} ScopeRefinesGraphScan(active: seq<string>, l: seq<NodeScore>, confidence: real, scope: Scope)
    requires Resolved(active, l, confidence, scope) && (KeyDeterminesCollections(l) || IdDeterminesNode(l))
    ensures (scope.directed, scope.targets) == GraphScope(active, l, confidence)
  {
    hide Deduped, Collections;
    var d: seq<NodeScore> :| Deduped(l, ScopeKey, ScoreOf, d) && scope == ScopeFor(active, d, confidence);
    assert KeyDeterminesCollections(l);
    KeyKeepsBindings(active, l, d);
    ScopesAgreeIff(active, l, confidence, scope);
  }

  /**
   Two candidates with one ID, such as the rows ("n", ["a"]) and ("n", ["b"]): the scan searches the
   collections of both, the shared scope only those of the better one.
   */
  lemma {:induction false} SharedIdNarrowsTheScope(active: seq<string>, a: NodeScore, b: NodeScore, x: string,
                                                   y: string, confidence: real)
    requires ScopeKey(a) == ScopeKey(b) && a.score >= b.score && a.score >= confidence && a.score > 0.0
    requires x in active && x in Collections(a.node)
    requires y in active && y in Collections(b.node) && y !in Collections(a.node)
    ensures Deduped([a, b], ScopeKey, ScoreOf, [a])
    ensures ScopeFor(active, [a], confidence).directed && y !in ScopeFor(active, [a], confidence).targets
    ensures GraphScope(active, [a, b], confidence).0 && y in GraphScope(active, [a, b], confidence).1
  {
    hide Collections, ScopeKey, Filter, Top, Binds, Deduped;
    var none: seq<NodeScore> := [];
    NothingSeen(ScopeKey, ScoreOf);
    FreshKey(none, ScopeKey, ScoreOf, none, a);
    assert none + [a] == [a] && [a] + [b] == [a, b];
    SeenKey([a], ScopeKey, ScoreOf, [a], b, 0);
    NothingBound();
    Append(none, a);
    Append([a], b);
    TargetsAre(active, [a], x);
    TargetsAre(active, [a], y);
    TargetsAre(active, [a, b], x);
    TargetsAre(active, [a, b], y);
  }

  // ----- Which intents were directed -----

  ghost predicate HasId(l: seq<NodeScore>, id: string) {
    exists i :: 0 <= i < |l| && !Text.IsBlank(l[i].node.id) && Text.Trim(l[i].node.id) == id
  }

  /** The node IDs among `l`, as the loops of `resolveDirectedIntentIDs` collect them. */
  method CollectIds(l: seq<NodeScore>) returns (ids: set<string>)
    ensures forall id :: id in ids <==> HasId(l, id)
  {
    ids := {};
    for i := 0 to |l|
      invariant forall id :: id in ids <==>
                  exists k :: 0 <= k < i && !Text.IsBlank(l[k].node.id) && Text.Trim(l[k].node.id) == id
    {
      var id := Text.Trim(l[i].node.id);
      if id != "" {
        ids := ids + {id};
      }
    }
  }

  /** The IDs answered from the scope if there is one, else from the candidates `l`. */
  method ResolveDirectedIntentIDs(scope: Option<Scope>, l: seq<NodeScore>, confidence: real) returns (ids: set<string>)
    ensures scope.Some? ==> forall id :: id in ids <==> scope.value.directed && HasId(scope.value.intents, id)
    ensures scope.None? ==> forall id :: id in ids <==> Top(l) >= confidence && HasId(l, id)
  {
    ids := {};
    if scope.Some? {
      if !scope.value.directed {
        return;
      }
      ids := CollectIds(scope.value.intents);
      return;
    }
    var maxScore := TopScore(l);
    if maxScore < confidence {
      return;
    }
    ids := CollectIds(l);
  }

  /** No best candidate without an ID is known by joined names that read like another candidate's ID. */
  ghost predicate IdsAndNamesApart(l: seq<NodeScore>) {
    forall p :: BestAt(l, ScopeKey, ScoreOf, p) && Text.IsBlank(l[p].node.id) ==> !HasId(l, ScopeKey(l[p]))
  }

  lemma {:induction false} DedupedHasId(l: seq<NodeScore>, d: seq<NodeScore>, id: string)
    requires Deduped(l, ScopeKey, ScoreOf, d)
    ensures HasId(d, id) <==>
              exists p :: BestAt(l, ScopeKey, ScoreOf, p) && !Text.IsBlank(l[p].node.id) && ScopeKey(l[p]) == id
  {
    DedupedAre(l, ScopeKey, ScoreOf, d);
    hide Deduped, BestAt, Text.IsBlank, Text.Trim, Collections;
    if HasId(d, id) {
      var i :| 0 <= i < |d| && !Text.IsBlank(d[i].node.id) && Text.Trim(d[i].node.id) == id;
      assert Best(l, ScopeKey, ScoreOf, d[i]);
    }
    if p :| BestAt(l, ScopeKey, ScoreOf, p) && !Text.IsBlank(l[p].node.id) && ScopeKey(l[p]) == id {
      assert Best(l, ScopeKey, ScoreOf, l[p]);
      var i :| 0 <= i < |d| && d[i] == l[p];
    }
  }

  /** A key has one best candidate. */
  lemma BestIsOne(l: seq<NodeScore>, p: int, q: int)
    requires BestAt(l, ScopeKey, ScoreOf, p) && BestAt(l, ScopeKey, ScoreOf, q) && ScopeKey(l[p]) == ScopeKey(l[q])
    ensures p == q
  {
  }

  /** Some candidate is the best one for the key of any candidate. */
  lemma BestOfKey(l: seq<NodeScore>, d: seq<NodeScore>, i: nat) returns (p: int)
    requires Deduped(l, ScopeKey, ScoreOf, d) && i < |l|
    ensures BestAt(l, ScopeKey, ScoreOf, p) && ScopeKey(l[p]) == ScopeKey(l[i])
  {
    DedupedCovers(l, ScopeKey, ScoreOf, d, l[i]);
    var j :| 0 <= j < |d| && ScopeKey(d[j]) == ScopeKey(l[i]) && ScoreOf(d[j]) >= ScoreOf(l[i]);
    p :| BestAt(l, ScopeKey, ScoreOf, p) && l[p] == d[j];
  }

  /** Under a directed scope both ways of computing the directed intent IDs agree, exactly then. */
  lemma {:induction false} DirectedIdsAgreeIff(active: seq<string>, l: seq<NodeScore>, confidence: real, scope: Scope)
    requires Resolved(active, l, confidence, scope) && scope.directed
    ensures Top(l) >= confidence
    ensures (forall id :: HasId(scope.intents, id) <==> HasId(l, id)) <==> IdsAndNamesApart(l)
    ensures forall id :: HasId(scope.intents, id) ==> HasId(l, id)
  {
    hide Deduped, Collections, Top, Targets, Supplement, Text.Trim, Text.IsBlank;
    var d: seq<NodeScore> :| Deduped(l, ScopeKey, ScoreOf, d) && scope == ScopeFor(active, d, confidence);
    SameTop(l, d);
    forall id ensures HasId(d, id) ==> HasId(l, id) { FewerIds(l, d, id); }
    if IdsAndNamesApart(l) {
      forall id | HasId(l, id) ensures HasId(d, id) { ApartKeepsId(l, d, id); }
    } else {
      var p :| BestAt(l, ScopeKey, ScoreOf, p) && Text.IsBlank(l[p].node.id) && HasId(l, ScopeKey(l[p]));
      BlankHidesId(l, d, p);
    }
  }

  lemma {:induction false} FewerIds(l: seq<NodeScore>, d: seq<NodeScore>, id: string)
    requires Deduped(l, ScopeKey, ScoreOf, d)
    ensures HasId(d, id) ==> HasId(l, id)
  {
    hide Deduped, Text.Trim, Text.IsBlank;
    if HasId(d, id) {
      var i :| 0 <= i < |d| && !Text.IsBlank(d[i].node.id) && Text.Trim(d[i].node.id) == id;
      DedupedIsPart(l, d, i);
      var k :| 0 <= k < |l| && l[k] == d[i];
    }
  }

  lemma {:induction false} ApartKeepsId(l: seq<NodeScore>, d: seq<NodeScore>, id: string)
    requires Deduped(l, ScopeKey, ScoreOf, d) && IdsAndNamesApart(l) && HasId(l, id)
    ensures HasId(d, id)
  {
    hide Deduped, Collections, Text.Trim, Text.IsBlank, BestAt;
    var i :| 0 <= i < |l| && !Text.IsBlank(l[i].node.id) && Text.Trim(l[i].node.id) == id;
    var p := BestOfKey(l, d, i);
    DedupedHasId(l, d, id);
  }

  lemma {:induction false} BlankHidesId(l: seq<NodeScore>, d: seq<NodeScore>, p: int)
    requires Deduped(l, ScopeKey, ScoreOf, d) && BestAt(l, ScopeKey, ScoreOf, p) && Text.IsBlank(l[p].node.id)
    ensures !HasId(d, ScopeKey(l[p]))
  {
    hide Deduped, Collections, Text.Trim, Text.IsBlank;
    DedupedHasId(l, d, ScopeKey(l[p]));
    if q :| BestAt(l, ScopeKey, ScoreOf, q) && !Text.IsBlank(l[q].node.id) && ScopeKey(l[q]) == ScopeKey(l[p]) {
      BestIsOne(l, p, q);
    }
  }

  // ----- Which vector channel runs -----

  /** `RetrieverSearchChannel.IsEnabled`; `legacy` is what it decides from the intents when there is no scope. */
  predicate RetrieverEnabled(scope: Option<Scope>, hasRetriever: bool, vectorGlobal: bool, configured: bool,
                             legacy: bool) {
    && hasRetriever
    && (vectorGlobal && configured ==> if scope.Some? then !scope.value.directed else legacy)
  }

  /** `BackendIntentDirectedSearchChannel.IsEnabled` */
  predicate IntentDirectedEnabled(scope: Option<Scope>, hasBackend: bool, legacy: bool) {
    hasBackend && if scope.Some? then scope.value.directed && scope.value.targets != [] else legacy
  }

  /** Under every resolved scope, one of the two vector channels runs, and never both; a directed scope runs its own. */
  lemma ExactlyOneVectorChannel(active: seq<string>, l: seq<NodeScore>, confidence: real, scope: Scope,
                                legacyGlobal: bool, legacyDirected: bool)
    requires Resolved(active, l, confidence, scope)
    ensures forall backend :: IntentDirectedEnabled(Some(scope), backend, legacyDirected) <==> backend && scope.directed
    ensures forall retriever, global, configured ::
              RetrieverEnabled(Some(scope), retriever, global, configured, legacyGlobal) <==>
              retriever && !(global && configured && scope.directed)
    ensures RetrieverEnabled(Some(scope), true, true, true, legacyGlobal) <==>
              !IntentDirectedEnabled(Some(scope), true, legacyDirected)
  {
    ScopePartitionsActive(active, l, confidence, scope);
  }

  // ----- Quotas -----

  datatype ScopeQuota = ScopeQuota(primary: int, supplement: int)

  /** `math.Round` on non-negative numbers. */
  function Round(x: real): int
    requires x >= 0.0
  {
    (x + 0.5).Floor
  }

  /** Splits one budget between the directed and the supplement scope. */
  function SplitScopeQuota(scope: Option<Scope>, budget: int, ratio: real): (q: ScopeQuota)
    ensures q.primary + q.supplement == budget
    ensures budget >= 1 ==> q.primary >= 1
    ensures q.supplement >= 0
    ensures q.supplement > 0 <==>
              scope.Some? && scope.value.directed && scope.value.supplement != [] && ratio > 0.0 && budget >= 2
    ensures q.supplement > 1 ==> q.supplement as real - 0.5 <= budget as real * ratio
    ensures q.supplement > 0 && q.primary > 1 ==> budget as real * ratio < q.supplement as real + 0.5
  {
    if scope.None? || !scope.value.directed || scope.value.supplement == [] || ratio <= 0.0 || budget <= 1 then
      ScopeQuota(budget, 0)
    else
      assert budget as real * ratio >= 0.0;
      var rounded := Round(budget as real * ratio);
      var atLeastOne := if rounded < 1 then 1 else rounded;
      var supplement := if atLeastOne > budget - 1 then budget - 1 else atLeastOne;
      ScopeQuota(budget - supplement, supplement)
  }
}
