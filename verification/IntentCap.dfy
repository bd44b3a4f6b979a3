/**
 Capping the intents of all sub-questions at a total budget (`internal/biz/rag/intent.go`).

 The loop keeps the best candidate of every sub-question and fills the rest of the budget greedily.
 The result is proved optimal: no selection of the same size that represents every sub-question
 scores higher.
 */
module IntentCap {
  import opened Intents
  import opened StableSort
  import Text

  datatype Candidate = Candidate(sub: nat, ns: NodeScore)

  /** The order both sorts use: higher score first, ties by node ID. */
  predicate Better(a: NodeScore, b: NodeScore) {
    if a.score == b.score then Text.StringLess(a.node.id, b.node.id) else a.score > b.score
  }

  predicate Ranks(a: Candidate, b: Candidate) {
    Better(a.ns, b.ns)
  }

  lemma BetterIsAnOrder()
    ensures StrictWeakOrder(Better) && StrictWeakOrder(Ranks)
  {
    forall a: NodeScore ensures !Better(a, a) { Text.StringLessIrreflexive(a.node.id); }
    forall a: NodeScore, b: NodeScore | Better(a, b) ensures !Better(b, a) {
      if Better(b, a) {
        Text.StringLessTransitive(a.node.id, b.node.id, a.node.id);
        Text.StringLessIrreflexive(a.node.id);
      }
    }
    forall a: NodeScore, b: NodeScore, c: NodeScore | !Better(a, b) && !Better(b, c) ensures !Better(a, c) {
      if Better(a, c) {
        Text.StringLessTotal(a.node.id, b.node.id);
        Text.StringLessTotal(b.node.id, c.node.id);
        if a.score == b.score == c.score {
          if b.node.id != c.node.id && a.node.id != b.node.id {
            Text.StringLessTransitive(c.node.id, b.node.id, a.node.id);
            Text.StringLessTransitive(a.node.id, c.node.id, a.node.id);
            Text.StringLessIrreflexive(a.node.id);
          }
        }
      }
    }
  }

  // ----- Selections and their scores -----

  function Total(subs: seq<SubQuestionIntent>): nat {
    if subs == [] then 0 else Total(subs[..|subs| - 1]) + |subs[|subs| - 1].nodeScores|
  }

  function Tagged(sub: nat, scores: seq<NodeScore>): seq<Candidate> {
    seq(|scores|, k requires 0 <= k < |scores| => Candidate(sub, scores[k]))
  }

  /** All candidates, sub-question by sub-question. */
  function Flatten(subs: seq<SubQuestionIntent>): seq<Candidate> {
    if subs == [] then [] else
    Flatten(subs[..|subs| - 1]) + Tagged(|subs| - 1, subs[|subs| - 1].nodeScores)
  }

  function SumOf(c: seq<Candidate>): real {
    if c == [] then 0.0 else c[0].ns.score + SumOf(c[1..])
  }

  /** The sum of all scores of a selection. */
  function ScoreTotal(subs: seq<SubQuestionIntent>): real {
    SumOf(Flatten(subs))
  }

  ghost predicate DistinctIds(subs: seq<SubQuestionIntent>) {
    forall i, a, b :: 0 <= i < |subs| && 0 <= a < b < |subs[i].nodeScores| ==>
      subs[i].nodeScores[a].node.id != subs[i].nodeScores[b].node.id
  }

  /** The sub-questions that have a candidate. */
  ghost function Active(subs: seq<SubQuestionIntent>): set<nat> {
    set i: nat | i < |subs| && subs[i].nodeScores != []
  }

  /** `t` picks some of the candidates of each sub-question of `subs`. */
  ghost predicate IsSelection(t: seq<SubQuestionIntent>, subs: seq<SubQuestionIntent>) {
    |t| == |subs| && forall i :: 0 <= i < |subs| ==> multiset(t[i].nodeScores) <= multiset(subs[i].nodeScores)
  }

  ghost predicate Represents(t: seq<SubQuestionIntent>, subs: seq<SubQuestionIntent>) {
    |t| == |subs| && forall i :: 0 <= i < |subs| && subs[i].nodeScores != [] ==> t[i].nodeScores != []
  }

  /** `a` scores higher than `b`, or as high without a higher ID. */
  ghost predicate NoWorse(a: NodeScore, b: NodeScore) {
    a.score > b.score || (a.score == b.score && !Text.StringLess(b.node.id, a.node.id))
  }

  ghost predicate IsBestOf(ns: NodeScore, scores: seq<NodeScore>) {
    ns in scores && forall x :: x in scores ==> NoWorse(ns, x)
  }

  /** By falling score, equal scores by ID. */
  ghost predicate InOrder(scores: seq<NodeScore>) {
    forall a, b :: 0 <= a < b < |scores| ==> NoWorse(scores[a], scores[b])
  }

  lemma SortedIsInOrder(scores: seq<NodeScore>)
    ensures SortedBy(scores, Better) <==> InOrder(scores)
  {
    if SortedBy(scores, Better) {
      forall a, b | 0 <= a < b < |scores| ensures NoWorse(scores[a], scores[b]) {
        NoWorseIsNotBetter(scores[a], scores[b]);
      }
    }
    if InOrder(scores) {
      forall a, b | 0 <= a < b < |scores| ensures !Better(scores[b], scores[a]) {
        NoWorseIsNotBetter(scores[a], scores[b]);
      }
    }
  }

  lemma NoWorseIsNotBetter(a: NodeScore, b: NodeScore)
    ensures NoWorse(a, b) <==> !Better(b, a)
  {
  }

  // ----- Counting candidates -----

  /** The scores of one sub-question among `c`, in order. */
  function Of(c: seq<Candidate>, sub: nat): seq<NodeScore> {
    if c == [] then [] else
    var last := c[|c| - 1];
    Of(c[..|c| - 1], sub) + if last.sub == sub then [last.ns] else []
  }

  lemma {:induction false} OfCounts(c: seq<Candidate>, sub: nat, ns: NodeScore)
    ensures multiset(Of(c, sub))[ns] == multiset(c)[Candidate(sub, ns)]
  {
    if c != [] {
      OfCounts(c[..|c| - 1], sub, ns);
      assert c == c[..|c| - 1] + [c[|c| - 1]];
    }
  }

  lemma {:induction false} TaggedCounts(sub: nat, scores: seq<NodeScore>, x: Candidate)
    ensures multiset(Tagged(sub, scores))[x] == if x.sub == sub then multiset(scores)[x.ns] else 0
  {
    if scores != [] {
      var last := |scores| - 1;
      TaggedCounts(sub, scores[..last], x);
      assert scores == scores[..last] + [scores[last]];
      assert Tagged(sub, scores) == Tagged(sub, scores[..last]) + [Candidate(sub, scores[last])];
    }
  }

  lemma {:induction false} FlattenCounts(subs: seq<SubQuestionIntent>, x: Candidate)
    ensures multiset(Flatten(subs))[x] == if x.sub < |subs| then multiset(subs[x.sub].nodeScores)[x.ns] else 0
    ensures |Flatten(subs)| == Total(subs)
  {
    if subs != [] {
      var last := |subs| - 1;
      FlattenCounts(subs[..last], x);
      TaggedCounts(last, subs[last].nodeScores, x);
    }
  }

  ghost predicate NoRepeats(c: seq<Candidate>) {
    forall i, j :: 0 <= i < j < |c| ==> c[i] != c[j]
  }

  lemma {:induction false} AtMostOnceNoRepeats(c: seq<Candidate>)
    requires forall x :: multiset(c)[x] <= 1
    ensures NoRepeats(c)
  {
    if c != [] {
      assert c == [c[0]] + c[1..];
      forall x ensures multiset(c[1..])[x] <= 1 { assert multiset(c)[x] <= 1; }
      AtMostOnceNoRepeats(c[1..]);
      assert multiset(c)[c[0]] <= 1;
      assert c[0] !in multiset(c[1..]);
    }
  }

  lemma {:induction false} DistinctAtMostOnce(scores: seq<NodeScore>, x: NodeScore)
    requires forall a, b :: 0 <= a < b < |scores| ==> scores[a].node.id != scores[b].node.id
    ensures multiset(scores)[x] <= 1
  {
    if scores != [] {
      DistinctAtMostOnce(scores[1..], x);
      assert scores == [scores[0]] + scores[1..];
      if x == scores[0] { assert x !in scores[1..]; }
    }
  }

  /** With distinct IDs no selection lists a candidate twice. */
  lemma SelectionNoRepeats(subs: seq<SubQuestionIntent>, t: seq<SubQuestionIntent>)
    requires DistinctIds(subs) && IsSelection(t, subs)
    ensures NoRepeats(Flatten(t)) && forall x :: x in Flatten(t) ==> x in Flatten(subs)
  {
    forall x ensures multiset(Flatten(t))[x] <= 1 && (x in Flatten(t) ==> x in Flatten(subs)) {
      FlattenCounts(t, x);
      FlattenCounts(subs, x);
      if x.sub < |subs| {
        DistinctAtMostOnce(subs[x.sub].nodeScores, x.ns);
        assert multiset(t[x.sub].nodeScores)[x.ns] <= multiset(subs[x.sub].nodeScores)[x.ns];
      }
      assert x in Flatten(t) <==> multiset(Flatten(t))[x] > 0;
      assert x in Flatten(subs) <==> multiset(Flatten(subs))[x] > 0;
    }
    AtMostOnceNoRepeats(Flatten(t));
  }

  // ----- Sums over a set of candidates -----

  ghost function Members(c: seq<Candidate>): set<Candidate> {
    set x | x in c
  }

  lemma {:induction false} MembersCount(c: seq<Candidate>)
    ensures |Members(c)| <= |c|
    ensures NoRepeats(c) ==> |Members(c)| == |c|
  {
    if c != [] {
      MembersCount(c[1..]);
      assert Members(c) == {c[0]} + Members(c[1..]);
    }
  }

  /** The scores of the candidates in `picks`, added up in the order of `c`. */
  ghost function SumIn(c: seq<Candidate>, picks: set<Candidate>): real {
    if c == [] then 0.0 else (if c[0] in picks then c[0].ns.score else 0.0) + SumIn(c[1..], picks)
  }

  lemma {:induction false} SumInSame(c: seq<Candidate>, p: set<Candidate>, q: set<Candidate>)
    requires forall x :: x in c ==> (x in p <==> x in q)
    ensures SumIn(c, p) == SumIn(c, q)
  {
    if c != [] { SumInSame(c[1..], p, q); }
  }

  lemma {:induction false} SumInAdd(c: seq<Candidate>, picks: set<Candidate>, x: Candidate)
    requires NoRepeats(c) && x in c && x !in picks
    ensures SumIn(c, picks + {x}) == SumIn(c, picks) + x.ns.score
  {
    if c[0] == x {
      SumInSame(c[1..], picks + {x}, picks);
    } else {
      SumInAdd(c[1..], picks, x);
    }
  }

  /** Replacing a picked candidate by an unpicked one. */
  lemma Exchange(c: seq<Candidate>, picks: set<Candidate>, lost: Candidate, won: Candidate)
    requires NoRepeats(c) && lost in c && won in c && lost in picks && won !in picks
    ensures SumIn(c, picks - {lost} + {won}) == SumIn(c, picks) - lost.ns.score + won.ns.score
    ensures |picks - {lost} + {won}| == |picks|
  {
    SumInAdd(c, picks - {lost}, lost);
    assert picks - {lost} + {lost} == picks;
    SumInAdd(c, picks - {lost}, won);
  }

  lemma {:induction false} SumInIsSumOf(c: seq<Candidate>, f: seq<Candidate>)
    requires NoRepeats(c) && NoRepeats(f) && forall x :: x in f ==> x in c
    ensures SumIn(c, Members(f)) == SumOf(f)
  {
    if f == [] {
      NothingPicked(c);
      assert Members(f) == {};
    } else {
      SumInIsSumOf(c, f[1..]);
      SumInAdd(c, Members(f[1..]), f[0]);
      assert Members(f[1..]) + {f[0]} == Members(f);
    }
  }

  lemma {:induction false} NothingPicked(c: seq<Candidate>)
    ensures SumIn(c, {}) == 0.0
  {
    if c != [] { NothingPicked(c[1..]); }
  }

  // ----- The greedy choice is optimal -----

  predicate HasSub(g: seq<Candidate>, sub: nat) {
    exists k :: 0 <= k < |g| && g[k].sub == sub
  }

  /** The best candidate of each sub-question: the first one in ranked order. */
  function Heads(c: seq<Candidate>): seq<Candidate> {
    if c == [] then [] else
    var h := Heads(c[..|c| - 1]);
    if HasSub(h, c[|c| - 1].sub) then h else h + [c[|c| - 1]]
  }

  ghost predicate OnePerSub(g: seq<Candidate>) {
    forall a, b :: 0 <= a < b < |g| ==> g[a].sub != g[b].sub
  }

  /** Some member of `g` is of `x`'s sub-question and is ranked no worse. */
  ghost predicate Led(g: seq<Candidate>, x: Candidate) {
    exists k :: 0 <= k < |g| && g[k].sub == x.sub && !Ranks(x, g[k])
  }

  lemma {:induction false} HeadsAreCandidates(c: seq<Candidate>)
    ensures OnePerSub(Heads(c)) && multiset(Heads(c)) <= multiset(c)
    ensures forall g :: g in Heads(c) ==> g in c
  {
    if c != [] {
      var front, last := c[..|c| - 1], c[|c| - 1];
      HeadsAreCandidates(front);
      assert c == front + [last] && c[..|front| + 1] == c;
      HeadsSnoc(c, |front|);
      hide Heads;
      assert multiset(c) == multiset(front) + multiset{last};
    }
  }

  lemma LedByMore(g: seq<Candidate>, more: seq<Candidate>, x: Candidate)
    requires Led(g, x)
    ensures Led(g + more, x)
  {
    var k :| 0 <= k < |g| && g[k].sub == x.sub && !Ranks(x, g[k]);
    assert (g + more)[k] == g[k];
  }

  lemma {:induction false} HeadsLead(c: seq<Candidate>, x: Candidate)
    requires SortedBy(c, Ranks) && x in c
    ensures Led(Heads(c), x)
  {
    hide Better, Ranks, Heads;
    var front, last := c[..|c| - 1], c[|c| - 1];
    assert c == front + [last] && c[..|front| + 1] == c;
    HeadsSnoc(c, |front|);
    var h := Heads(front);
    if x in front {
      HeadsLead(front, x);
      LedByMore(h, [last], x);
    } else if HasSub(h, last.sub) {
      var k :| 0 <= k < |h| && h[k].sub == last.sub;
      HeadsAreCandidates(front);
      assert h[k] in front;
      var i :| 0 <= i < |front| && front[i] == h[k];
      assert c[i] == h[k] && !Ranks(last, c[i]);
    } else {
      NotAboveItself(last);
      assert Heads(c)[|h|] == last;
    }
  }

  lemma NotAboveItself(x: Candidate)
    ensures !Ranks(x, x)
  {
    Text.StringLessIrreflexive(x.ns.node.id);
  }

  lemma {:induction false} HeadsGrow(c: seq<Candidate>, k: nat)
    requires k <= |c|
    ensures Heads(c[..k]) <= Heads(c)
  {
    if k < |c| {
      HeadsGrow(c[..|c| - 1], k);
      assert c[..|c| - 1][..k] == c[..k];
    } else {
      assert c[..k] == c;
    }
  }

  lemma {:induction false} HeadsHaveAllSubs(c: seq<Candidate>, x: Candidate)
    requires x in c
    ensures HasSub(Heads(c), x.sub)
  {
    var front, h := c[..|c| - 1], Heads(c[..|c| - 1]);
    assert c == front + [c[|c| - 1]];
    if x in front {
      HeadsHaveAllSubs(front, x);
      var k :| 0 <= k < |h| && h[k].sub == x.sub;
      assert Heads(c)[k] == h[k];
    } else if !HasSub(h, x.sub) {
      assert Heads(c)[|h|].sub == x.sub;
    }
  }

  lemma ActiveHasCandidate(subs: seq<SubQuestionIntent>, i: nat)
    requires i in Active(subs)
    ensures Candidate(i, subs[i].nodeScores[0]) in Flatten(subs)
  {
    var x := Candidate(i, subs[i].nodeScores[0]);
    FlattenCounts(subs, x);
    assert x.ns in multiset(subs[i].nodeScores);
    assert x in multiset(Flatten(subs));
  }

  lemma CandidateIsActive(subs: seq<SubQuestionIntent>, x: Candidate)
    requires x in Flatten(subs)
    ensures x.sub in Active(subs) && x.sub < |subs| && x.ns in subs[x.sub].nodeScores
  {
    FlattenCounts(subs, x);
    assert x in multiset(Flatten(subs));
    assert x.ns in multiset(subs[x.sub].nodeScores);
  }

  /** There is one head for every sub-question that has candidates. */
  lemma HeadsCountActive(subs: seq<SubQuestionIntent>, c: seq<Candidate>)
    requires multiset(c) == multiset(Flatten(subs))
    ensures |Heads(c)| == |Active(subs)|
    ensures SubsOf(Heads(c)) == Active(subs)
  {
    HeadsAreCandidates(c);
    var g := Heads(c);
    forall i | i in Active(subs) ensures i in SubsOf(g) {
      ActiveHasCandidate(subs, i);
      var x := Candidate(i, subs[i].nodeScores[0]);
      assert x in multiset(c);
      HeadsHaveAllSubs(c, x);
      var k :| 0 <= k < |g| && g[k].sub == i;
      assert g[k] in g;
    }
    forall i | i in SubsOf(g) ensures i in Active(subs) {
      var h :| h in g && h.sub == i;
      assert h in multiset(c);
      CandidateIsActive(subs, h);
    }
    SubsOfCount(g);
    assert SubsOf(g) == Active(subs);
  }

  ghost function SubsOf(g: seq<Candidate>): set<nat> {
    set x | x in g :: x.sub
  }

  lemma {:induction false} SubsOfCount(g: seq<Candidate>)
    requires OnePerSub(g)
    ensures |SubsOf(g)| == |g|
  {
    if g != [] {
      SubsOfCount(g[1..]);
      assert g == [g[0]] + g[1..];
      assert SubsOf(g) == {g[0].sub} + SubsOf(g[1..]);
    }
  }

  /** `t` has a candidate of sub-question `sub`. */
  ghost predicate Covers(t: set<Candidate>, sub: nat) {
    exists x :: x in t && x.sub == sub
  }

  lemma CoversAfterExchange(t: set<Candidate>, x: Candidate, h: Candidate, sub: nat)
    requires Covers(t, sub) && x.sub == h.sub
    ensures Covers(t - {x} + {h}, sub)
  {
    var y :| y in t && y.sub == sub;
    assert (if y == x then h else y) in t - {x} + {h};
  }

  lemma {:induction false} HeadBeats(c: seq<Candidate>, x: Candidate, h: Candidate)
    requires SortedBy(c, Ranks) && x in c && h in Heads(c) && x.sub == h.sub
    ensures !Ranks(x, h)
    ensures x != h ==> x !in Heads(c)
  {
    hide Heads, SortedBy, Ranks;
    HeadsAreCandidates(c);
    HeadsLead(c, x);
    var g := Heads(c);
    var k :| 0 <= k < |g| && g[k].sub == x.sub && !Ranks(x, g[k]);
    var j :| 0 <= j < |g| && g[j] == h;
    assert k == j;
  }

  /** A representing selection can be changed to contain all heads without losing score. */
  lemma {:induction false} TakeHeads(c: seq<Candidate>, t: set<Candidate>) returns (u: set<Candidate>)
    requires NoRepeats(c) && SortedBy(c, Ranks) && t <= Members(c)
    requires forall h :: h in Heads(c) ==> Covers(t, h.sub)
    ensures u <= Members(c) && Members(Heads(c)) <= u && |u| == |t|
    ensures SumIn(c, u) >= SumIn(c, t)
    decreases Members(Heads(c)) - t
  {
    hide SumIn, Heads, SortedBy;
    if Members(Heads(c)) <= t {
      u := t;
    } else {
      var h :| h in Members(Heads(c)) && h !in t;
      assert Covers(t, h.sub);
      var x :| x in t && x.sub == h.sub;
      HeadsAreCandidates(c);
      HeadBeats(c, x, h);
      Exchange(c, t, x, h);
      var t' := t - {x} + {h};
      forall k | k in Heads(c) ensures Covers(t', k.sub) { CoversAfterExchange(t, x, h, k.sub); }
      assert h in Members(Heads(c)) - t && h !in Members(Heads(c)) - t';
      u := TakeHeads(c, t');
    }
  }

  /** One step: a missing candidate from the front replaces one from further back. */
  lemma {:induction false} SwapInFromTheTop(c: seq<Candidate>, g: set<Candidate>, s: set<Candidate>, cut: nat,
                                            u: set<Candidate>)
      returns (u': set<Candidate>)
    requires NoRepeats(c) && SortedBy(c, Ranks) && cut <= |c|
    requires g <= s <= Members(c) && g <= u <= Members(c) && |u| == |s| && s != u
    requires forall i :: 0 <= i < cut ==> c[i] in s
    requires forall i :: cut <= i < |c| && c[i] in s ==> c[i] in g
    ensures g <= u' <= Members(c) && |u'| == |s| && s - u' < s - u
    ensures SumIn(c, u') >= SumIn(c, u)
  {
    hide SumIn, NoRepeats, StrictWeakOrder;
    if s - u == {} { SameSize(s, u); }
    var won :| won in s - u;
    if u - s == {} { SameSize(u, s); }
    var lost :| lost in u - s;
    var i :| 0 <= i < |c| && c[i] == won;
    var j :| 0 <= j < |c| && c[j] == lost;
    assert i < cut <= j;
    assert !Ranks(c[j], c[i]);
    Exchange(c, u, lost, won);
    u' := u - {lost} + {won};
    assert won in s - u && won !in s - u';
  }

  /** Among the selections that contain `g`, filling up from the front of the ranking scores highest. */
  lemma {:induction false} FillFromTheTop(c: seq<Candidate>, g: set<Candidate>, s: set<Candidate>, cut: nat,
                                          u: set<Candidate>)
    requires NoRepeats(c) && SortedBy(c, Ranks) && cut <= |c|
    requires g <= s <= Members(c) && g <= u <= Members(c) && |u| == |s|
    requires forall i :: 0 <= i < cut ==> c[i] in s
    requires forall i :: cut <= i < |c| && c[i] in s ==> c[i] in g
    ensures SumIn(c, s) >= SumIn(c, u)
    decreases s - u
  {
    hide SumIn, SortedBy, NoRepeats;
    if s != u {
      var u' := SwapInFromTheTop(c, g, s, cut, u);
      FillFromTheTop(c, g, s, cut, u');
    }
  }

  lemma SameSize(a: set<Candidate>, b: set<Candidate>)
    requires a - b == {} && |a| == |b|
    ensures a == b
  {
    assert a <= b;
    assert |b - a| == |b| - |a|;
  }

  /** A selection as a set of ranked candidates. */
  lemma SelectionAsSet(subs: seq<SubQuestionIntent>, c: seq<Candidate>, t: seq<SubQuestionIntent>)
    requires DistinctIds(subs) && multiset(c) == multiset(Flatten(subs)) && NoRepeats(c) && IsSelection(t, subs)
    ensures Members(Flatten(t)) <= Members(c) && |Members(Flatten(t))| == Total(t)
    ensures SumIn(c, Members(Flatten(t))) == ScoreTotal(t)
  {
    SelectionNoRepeats(subs, t);
    forall x | x in Flatten(t) ensures x in c { assert x in multiset(Flatten(subs)); }
    MembersCount(Flatten(t));
    FlattenCounts(t, Candidate(0, NodeScore(IntentNode("", false, "", []), 0.0)));
    SumInIsSumOf(c, Flatten(t));
  }

  lemma RepresentingCovers(subs: seq<SubQuestionIntent>, t: seq<SubQuestionIntent>, c: seq<Candidate>, h: Candidate)
    requires multiset(c) == multiset(Flatten(subs)) && IsSelection(t, subs) && Represents(t, subs) && h in Heads(c)
    ensures Covers(Members(Flatten(t)), h.sub)
  {
    HeadsAreCandidates(c);
    assert h in multiset(c);
    CandidateIsActive(subs, h);
    ActiveHasCandidate(t, h.sub);
    assert Candidate(h.sub, t[h.sub].nodeScores[0]) in Members(Flatten(t));
  }

  /** The whole argument: heads first, then the top of the ranking, beats every rival selection. */
  lemma GreedyIsOptimal(subs: seq<SubQuestionIntent>, c: seq<Candidate>, s: set<Candidate>, cut: nat,
                        t: seq<SubQuestionIntent>)
    requires DistinctIds(subs) && multiset(c) == multiset(Flatten(subs)) && SortedBy(c, Ranks) && cut <= |c|
    requires NoRepeats(c) && Members(Heads(c)) <= s <= Members(c)
    requires forall i :: 0 <= i < cut ==> c[i] in s
    requires forall i :: cut <= i < |c| && c[i] in s ==> c[i] in Members(Heads(c))
    requires IsSelection(t, subs) && Represents(t, subs) && Total(t) == |s|
    ensures ScoreTotal(t) <= SumIn(c, s)
  {
    SelectionAsSet(subs, c, t);
    forall h | h in Heads(c) ensures Covers(Members(Flatten(t)), h.sub) { RepresentingCovers(subs, t, c, h); }
    var u := TakeHeads(c, Members(Flatten(t)));
    FillFromTheTop(c, Members(Heads(c)), s, cut, u);
  }

  // ----- The code -----

  method CollectIntentCandidates(subs: seq<SubQuestionIntent>) returns (c: seq<Candidate>)
    ensures c == Sort(Flatten(subs), Ranks)
  {
    c := [];
    for i := 0 to |subs|
      invariant c == Flatten(subs[..i])
    {
      for j := 0 to |subs[i].nodeScores|
        invariant c == Flatten(subs[..i]) + Tagged(i, subs[i].nodeScores[..j])
      {
        c := c + [Candidate(i, subs[i].nodeScores[j])];
        assert Tagged(i, subs[i].nodeScores[..j + 1]) ==
          Tagged(i, subs[i].nodeScores[..j]) + [Candidate(i, subs[i].nodeScores[j])];
      }
      assert subs[i].nodeScores[..|subs[i].nodeScores|] == subs[i].nodeScores;
      assert subs[..i + 1][..i] == subs[..i];
    }
    assert subs[..|subs|] == subs;
    c := Sort(c, Ranks);
  }

  /** Of the candidates in `p`, those of earlier sub-questions come first. */
  ghost predicate SubsAscend(c: seq<Candidate>, p: Candidate -> bool) {
    forall i, j :: 0 <= i < j < |c| && p(c[i]) && p(c[j]) ==> c[i].sub <= c[j].sub
  }

  lemma {:induction false} SubsAscendIff(c: seq<Candidate>, p: Candidate -> bool)
    ensures SubsAscend(c, p) <==> SubsAscend(Filter(c, p), p)
  {
    if c != [] {
      var rest := c[1..];
      SubsAscendIff(rest, p);
      FilterHolds(rest, p);
      assert c == [c[0]] + rest;
      SubsAscendCons(c[0], rest, p);
      SubsAscendCons(c[0], Filter(rest, p), p);
      FilterCons(c[0], rest, p);
      assert [] + Filter(rest, p) == Filter(rest, p);
    }
  }

  lemma SubsAscendCons(x: Candidate, rest: seq<Candidate>, p: Candidate -> bool)
    ensures SubsAscend([x] + rest, p) <==> SubsAscend(rest, p) && FirstIsLeast(x, rest, p)
  {
    var c := [x] + rest;
    if SubsAscend(c, p) {
      forall y | y in rest && p(y) && p(x) ensures x.sub <= y.sub {
        var j :| 0 <= j < |rest| && rest[j] == y;
        assert c[0] == x && c[j + 1] == y;
      }
      forall i, j | 0 <= i < j < |rest| && p(rest[i]) && p(rest[j]) ensures rest[i].sub <= rest[j].sub {
        assert c[i + 1] == rest[i] && c[j + 1] == rest[j];
      }
    }
    if SubsAscend(rest, p) && FirstIsLeast(x, rest, p) {
      forall i, j | 0 <= i < j < |c| && p(c[i]) && p(c[j]) ensures c[i].sub <= c[j].sub {
        assert c[j] == rest[j - 1];
        if i > 0 { assert c[i] == rest[i - 1]; }
      }
    }
  }

  ghost predicate FirstIsLeast(x: Candidate, rest: seq<Candidate>, p: Candidate -> bool) {
    p(x) ==> forall y :: y in rest && p(y) ==> x.sub <= y.sub
  }

  lemma {:induction false} FilterHolds(c: seq<Candidate>, p: Candidate -> bool)
    ensures forall x :: x in Filter(c, p) <==> x in c && p(x)
  {
    if c != [] {
      FilterHolds(c[1..], p);
      assert c == [c[0]] + c[1..];
    }
  }

  lemma {:induction false} FlattenAscends(subs: seq<SubQuestionIntent>, p: Candidate -> bool)
    ensures SubsAscend(Flatten(subs), p) && forall x :: x in Flatten(subs) ==> x.sub < |subs|
  {
    if subs != [] {
      FlattenAscends(subs[..|subs| - 1], p);
    }
  }

  /** Candidates that score the same under one ID keep the order of their sub-questions. */
  lemma TiesKeepOrder(subs: seq<SubQuestionIntent>, c: seq<Candidate>, i: nat, j: nat)
    requires c == Sort(Flatten(subs), Ranks) && i < j < |c|
    requires c[i].ns.score == c[j].ns.score && c[i].ns.node.id == c[j].ns.node.id
    ensures c[i].sub <= c[j].sub
  {
    var x := c[i];
    var p := (y: Candidate) => y.ns.score == x.ns.score && y.ns.node.id == x.ns.node.id;
    Text.StringLessIrreflexive(x.ns.node.id);
    SortStable(Flatten(subs), Ranks, p);
    FlattenAscends(subs, p);
    SubsAscendIff(Flatten(subs), p);
    SubsAscendIff(c, p);
  }

  /** Some candidate of `c` has the sub-question and the node ID of `x`. */
  ghost predicate KeyIn(c: seq<Candidate>, x: Candidate) {
    exists k :: 0 <= k < |c| && c[k].sub == x.sub && c[k].ns.node.id == x.ns.node.id
  }

  method ContainsIntentCandidate(c: seq<Candidate>, target: Candidate) returns (found: bool)
    ensures found <==> KeyIn(c, target)
  {
    for i := 0 to |c|
      invariant forall k :: 0 <= k < i ==> !(c[k].sub == target.sub && c[k].ns.node.id == target.ns.node.id)
    {
      if c[i].sub == target.sub && c[i].ns.node.id == target.ns.node.id {
        return true;
      }
    }
    return false;
  }

  /** The candidates of `c` whose sub-question and ID are those of none of `g`. */
  ghost function Others(c: seq<Candidate>, g: seq<Candidate>): seq<Candidate> {
    Filter(c, (x: Candidate) => !KeyIn(g, x))
  }

  lemma OthersStep(c: seq<Candidate>, g: seq<Candidate>, k: nat)
    requires k < |c|
    ensures Others(c[..k + 1], g) == Others(c[..k], g) + if KeyIn(g, c[k]) then [] else [c[k]]
  {
    FilterStep(c, (x: Candidate) => !KeyIn(g, x), k);
  }

  lemma {:induction false} OthersGrow(c: seq<Candidate>, g: seq<Candidate>, k: nat)
    requires k <= |c|
    ensures |Others(c[..k], g)| <= |Others(c, g)|
    decreases |c| - k
  {
    hide Others;
    if k < |c| {
      OthersStep(c, g, k);
      OthersGrow(c, g, k + 1);
    } else {
      assert c[..k] == c;
    }
  }

  /** `x` has the ID of a best candidate of its sub-question. */
  ghost predicate NamesBest(subs: seq<SubQuestionIntent>, x: Candidate) {
    x.sub < |subs| && exists h :: IsBestOf(h, subs[x.sub].nodeScores) && h.node.id == x.ns.node.id
  }

  /** The candidates that can fill the budget behind the best ones. */
  ghost function Fillers(subs: seq<SubQuestionIntent>): seq<Candidate> {
    Filter(Flatten(subs), (x: Candidate) => !NamesBest(subs, x))
  }

  lemma {:induction false} HeadIsBest(subs: seq<SubQuestionIntent>, c: seq<Candidate>, h: Candidate)
    requires multiset(c) == multiset(Flatten(subs)) && SortedBy(c, Ranks) && h in Heads(c)
    ensures h.sub < |subs| && IsBestOf(h.ns, subs[h.sub].nodeScores)
  {
    hide Heads, SortedBy, Flatten, Active, Better;
    HeadsAreCandidates(c);
    assert h in multiset(c);
    CandidateIsActive(subs, h);
    forall x | x in subs[h.sub].nodeScores ensures NoWorse(h.ns, x) {
      NoWorseIsNotBetter(h.ns, x);
      FlattenCounts(subs, Candidate(h.sub, x));
      assert x in multiset(subs[h.sub].nodeScores);
      assert Candidate(h.sub, x) in multiset(c);
      HeadBeats(c, Candidate(h.sub, x), h);
    }
  }

  lemma BestHasOneId(a: NodeScore, b: NodeScore, scores: seq<NodeScore>)
    requires IsBestOf(a, scores) && IsBestOf(b, scores)
    ensures a.node.id == b.node.id
  {
    assert !Better(a, b) && !Better(b, a);
    Text.StringLessTotal(a.node.id, b.node.id);
  }

  lemma {:induction false} KeyOfHead(subs: seq<SubQuestionIntent>, c: seq<Candidate>, x: Candidate)
    requires multiset(c) == multiset(Flatten(subs)) && SortedBy(c, Ranks) && x in c
    ensures KeyIn(Heads(c), x) <==> NamesBest(subs, x)
  {
    hide Heads, SortedBy, Flatten, IsBestOf, Better;
    HeadsHaveAllSubs(c, x);
    var g := Heads(c);
    var k :| 0 <= k < |g| && g[k].sub == x.sub;
    HeadIsBest(subs, c, g[k]);
    if j :| 0 <= j < |g| && g[j].sub == x.sub && g[j].ns.node.id == x.ns.node.id { HeadIsBest(subs, c, g[j]); }
    if h :| IsBestOf(h, subs[x.sub].nodeScores) && h.node.id == x.ns.node.id {
      BestHasOneId(h, g[k].ns, subs[x.sub].nodeScores);
    }
  }

  lemma {:induction false} FillersCount(subs: seq<SubQuestionIntent>, c: seq<Candidate>)
    requires multiset(c) == multiset(Flatten(subs)) && SortedBy(c, Ranks)
    ensures |Others(c, Heads(c))| == |Fillers(subs)|
  {
    var p, q := (x: Candidate) => !KeyIn(Heads(c), x), (x: Candidate) => !NamesBest(subs, x);
    forall x | x in c ensures p(x) == q(x) { KeyOfHead(subs, c, x); }
    hide Filter, Heads, KeyIn, NamesBest, SortedBy;
    FilterExt(c, p, q);
    FilterPermutes(c, Flatten(subs), q);
  }

  /** The group of sub-question `i`, empty when the map has none. */
  function GroupOf(grouped: map<nat, seq<NodeScore>>, i: nat): seq<NodeScore> {
    if i in grouped then grouped[i] else []
  }

  lemma OfSnoc(c: seq<Candidate>, k: nat, i: nat)
    requires k < |c|
    ensures Of(c[..k + 1], i) == Of(c[..k], i) + if c[k].sub == i then [c[k].ns] else []
  {
    assert c[..k + 1][..k] == c[..k];
  }

  /** The retained scores of each sub-question, in the order of `retained`. */
  method GroupRetained(retained: seq<Candidate>) returns (grouped: map<nat, seq<NodeScore>>)
    ensures forall i: nat :: GroupOf(grouped, i) == Of(retained, i)
  {
    hide Of;
    grouped := map[];
    NothingGrouped(retained);
    for k := 0 to |retained|
      invariant forall i: nat :: GroupOf(grouped, i) == Of(retained[..k], i)
    {
      var x := retained[k];
      ghost var before := grouped;
      grouped := grouped[x.sub := GroupOf(grouped, x.sub) + [x.ns]];
      forall i: nat ensures GroupOf(grouped, i) == Of(retained[..k + 1], i) {
        OfSnoc(retained, k, i);
        assert GroupOf(before, i) == Of(retained[..k], i);
      }
    }
  }

  lemma NothingGrouped(retained: seq<Candidate>)
    ensures forall i: nat :: Of(retained[..0], i) == []
    ensures retained[..|retained|] == retained
  {
  }

  /** The result lists exactly the retained candidates, group by group. */
  ghost predicate Regroups(r: seq<SubQuestionIntent>, retained: seq<Candidate>) {
    forall i :: 0 <= i < |r| ==> r[i].nodeScores == Sort(Of(retained, i), Better)
  }

  method RebuildSubQuestionIntents(original: seq<SubQuestionIntent>, retained: seq<Candidate>)
    returns (r: seq<SubQuestionIntent>)
    ensures |r| == |original|
    ensures forall i :: 0 <= i < |r| ==> r[i].subQuestion == original[i].subQuestion
    ensures Regroups(r, retained)
  {
    hide Of, Sort;
    var grouped := GroupRetained(retained);
    r := [];
    for i := 0 to |original|
      invariant |r| == i
      invariant forall k :: 0 <= k < i ==> r[k].subQuestion == original[k].subQuestion
      invariant forall k :: 0 <= k < i ==> r[k].nodeScores == Sort(Of(retained, k), Better)
    {
      r := r + [SubQuestionIntent(original[i].subQuestion, Sort(GroupOf(grouped, i), Better))];
    }
  }

  lemma RegroupedCount(subs: seq<SubQuestionIntent>, retained: seq<Candidate>, r: seq<SubQuestionIntent>, x: Candidate)
    requires multiset(retained) <= multiset(Flatten(subs)) && |r| == |subs| && Regroups(r, retained)
    ensures multiset(Flatten(r))[x] == multiset(retained)[x]
    ensures x.sub < |r| ==> multiset(r[x.sub].nodeScores)[x.ns] == multiset(retained)[x]
    ensures x.sub < |r| ==> multiset(r[x.sub].nodeScores)[x.ns] <= multiset(subs[x.sub].nodeScores)[x.ns]
  {
    FlattenCounts(r, x);
    FlattenCounts(subs, x);
    assert multiset(retained)[x] <= multiset(Flatten(subs))[x];
    if x.sub < |r| {
      SortPermutes(Of(retained, x.sub), Better);
      OfCounts(retained, x.sub, x.ns);
    }
  }

  /** Regrouping loses nothing and invents nothing. */
  lemma Regrouped(subs: seq<SubQuestionIntent>, retained: seq<Candidate>, r: seq<SubQuestionIntent>)
    requires multiset(retained) <= multiset(Flatten(subs)) && |r| == |subs| && Regroups(r, retained)
    ensures IsSelection(r, subs) && Total(r) == |retained|
    ensures multiset(Flatten(r)) == multiset(retained)
    ensures forall i :: 0 <= i < |r| ==> InOrder(r[i].nodeScores)
  {
    BetterIsAnOrder();
    forall i | 0 <= i < |r|
      ensures InOrder(r[i].nodeScores) && multiset(r[i].nodeScores) <= multiset(subs[i].nodeScores) {
      SortSorted(Of(retained, i), Better);
      SortedIsInOrder(r[i].nodeScores);
      forall ns ensures multiset(r[i].nodeScores)[ns] <= multiset(subs[i].nodeScores)[ns] {
        RegroupedCount(subs, retained, r, Candidate(i, ns));
      }
    }
    forall x ensures multiset(Flatten(r))[x] == multiset(retained)[x] { RegroupedCount(subs, retained, r, x); }
    FlattenCounts(r, Candidate(0, NodeScore(IntentNode("", false, "", []), 0.0)));
    assert multiset(Flatten(r)) == multiset(retained);
    assert |multiset(Flatten(r))| == |Flatten(r)| && |multiset(retained)| == |retained|;
  }

  // ----- What the cap guarantees -----

  /** Every sub-question with candidates keeps its best one, in first place. */
  ghost predicate KeepsBest(r: seq<SubQuestionIntent>, subs: seq<SubQuestionIntent>) {
    |r| == |subs| && forall i :: i in Active(subs) ==>
      r[i].nodeScores != [] && IsBestOf(r[i].nodeScores[0], subs[i].nodeScores)
  }

  /** No representing selection of `size` candidates has a larger score sum. */
  ghost predicate IsOptimal(r: seq<SubQuestionIntent>, subs: seq<SubQuestionIntent>, size: int) {
    forall t :: IsSelection(t, subs) && Represents(t, subs) && Total(t) == size ==> ScoreTotal(t) <= ScoreTotal(r)
  }

  /** At most the best candidate of each sub-question is kept, and none that was dropped ranks above a kept one. */
  ghost predicate KeepsTopBests(r: seq<SubQuestionIntent>, subs: seq<SubQuestionIntent>) {
    && |r| == |subs|
    && (forall i :: 0 <= i < |r| && r[i].nodeScores != [] ==>
         |r[i].nodeScores| == 1 && IsBestOf(r[i].nodeScores[0], subs[i].nodeScores))
    && (forall i, j, x ::
          0 <= i < |r| && 0 <= j < |r| && r[i].nodeScores != [] && r[j].nodeScores == [] && x in subs[j].nodeScores ==>
            NoWorse(r[i].nodeScores[0], x))
  }

  /** No dropped candidate comes before a kept one, other than the best ones and what has the ID of one. */
  ghost predicate KeepsTopFillers(r: seq<SubQuestionIntent>, subs: seq<SubQuestionIntent>) {
    |r| == |subs| && forall i, j, x, y ::
      0 <= i < |r| && 0 <= j < |r| && x in r[i].nodeScores && y in subs[j].nodeScores ==>
        IsBestOf(x, subs[i].nodeScores) || y in r[j].nodeScores || NamesBest(subs, Candidate(j, y)) || NoWorse(x, y)
  }

  lemma {:induction false} TopFillersAreKept(subs: seq<SubQuestionIntent>, c: seq<Candidate>, retained: seq<Candidate>,
                                             cut: nat, r: seq<SubQuestionIntent>)
    requires multiset(c) == multiset(Flatten(subs)) && SortedBy(c, Ranks) && cut <= |c|
    requires multiset(retained) <= multiset(c) && |r| == |subs| && Regroups(r, retained)
    requires forall x :: x in retained ==> x in Heads(c) || x in c[..cut]
    requires forall i :: 0 <= i < cut ==> c[i] in retained || KeyIn(Heads(c), c[i])
    ensures KeepsTopFillers(r, subs)
  {
    hide Heads, Regroups, Flatten, KeyIn, NamesBest, IsBestOf, NoWorse, SortedBy, Ranks;
    forall i, j, x, y | 0 <= i < |r| && 0 <= j < |r| && x in r[i].nodeScores && y in subs[j].nodeScores
      ensures IsBestOf(x, subs[i].nodeScores) || y in r[j].nodeScores || NamesBest(subs, Candidate(j, y)) ||
              NoWorse(x, y)
    {
      FillerIsKept(subs, c, retained, cut, r, Candidate(i, x), Candidate(j, y));
    }
  }

  lemma {:induction false} FillerIsKept(subs: seq<SubQuestionIntent>, c: seq<Candidate>, retained: seq<Candidate>,
                                        cut: nat, r: seq<SubQuestionIntent>, x: Candidate, y: Candidate)
    requires multiset(c) == multiset(Flatten(subs)) && SortedBy(c, Ranks) && cut <= |c|
    requires multiset(retained) <= multiset(c) && |r| == |subs| && Regroups(r, retained)
    requires forall x :: x in retained ==> x in Heads(c) || x in c[..cut]
    requires forall i :: 0 <= i < cut ==> c[i] in retained || KeyIn(Heads(c), c[i])
    requires x.sub < |r| && y.sub < |r| && x.ns in r[x.sub].nodeScores && y.ns in subs[y.sub].nodeScores
    ensures || IsBestOf(x.ns, subs[x.sub].nodeScores) || y.ns in r[y.sub].nodeScores
            || NamesBest(subs, y) || NoWorse(x.ns, y.ns)
  {
    hide Heads, Regroups, Flatten, KeyIn, NamesBest, IsBestOf, NoWorse, Better;
    RegroupedCount(subs, retained, r, x);
    assert x.ns in multiset(r[x.sub].nodeScores);
    assert x in multiset(retained) && x in retained;
    FlattenCounts(subs, y);
    assert y.ns in multiset(subs[y.sub].nodeScores);
    assert y in multiset(c) && y in c;
    if x in Heads(c) {
      HeadIsBest(subs, c, x);
    } else {
      KeyOfHead(subs, c, y);
      var a :| 0 <= a < cut && c[..cut][a] == x;
      var b :| 0 <= b < |c| && c[b] == y;
      if b < cut && y in retained {
        RegroupedCount(subs, retained, r, y);
        assert y in multiset(retained);
        assert y.ns in multiset(r[y.sub].nodeScores);
      } else if b >= cut {
        NoWorseIsNotBetter(x.ns, y.ns);
      }
    }
  }

  lemma NoWorseTransitive(a: NodeScore, b: NodeScore, c: NodeScore)
    requires NoWorse(a, b) && NoWorse(b, c)
    ensures NoWorse(a, c)
  {
    BetterIsAnOrder();
    NoWorseIsNotBetter(a, b);
    NoWorseIsNotBetter(b, c);
    NoWorseIsNotBetter(a, c);
  }

  lemma {:induction false} FirstIsNoWorse(scores: seq<NodeScore>, ns: NodeScore)
    requires InOrder(scores) && ns in scores
    ensures NoWorse(scores[0], ns)
  {
    hide NoWorse, Better;
    var k :| 0 <= k < |scores| && scores[k] == ns;
    if k == 0 {
      BetterIsAnOrder();
      NoWorseIsNotBetter(ns, ns);
    }
  }

  /** A retained head comes first in its sub-question's result. */
  lemma {:induction false} KeptHeadComesFirst(subs: seq<SubQuestionIntent>, c: seq<Candidate>,
                                              retained: seq<Candidate>, r: seq<SubQuestionIntent>, h: Candidate)
    requires multiset(c) == multiset(Flatten(subs)) && SortedBy(c, Ranks) && multiset(retained) <= multiset(c)
    requires |r| == |subs| && Regroups(r, retained) && h in Heads(c) && h in retained
    ensures h.sub < |r| && r[h.sub].nodeScores != [] && IsBestOf(r[h.sub].nodeScores[0], subs[h.sub].nodeScores)
    ensures NoWorse(r[h.sub].nodeScores[0], h.ns)
  {
    hide NoWorse, Better, Ranks, Heads, SortedBy, Regroups, Flatten, InOrder;
    Regrouped(subs, retained, r);
    HeadIsBest(subs, c, h);
    RegroupedCount(subs, retained, r, h);
    assert h in multiset(retained);
    assert h.ns in multiset(r[h.sub].nodeScores);
    var first := r[h.sub].nodeScores[0];
    FirstIsNoWorse(r[h.sub].nodeScores, h.ns);
    assert first in multiset(subs[h.sub].nodeScores) by { assert first in multiset(r[h.sub].nodeScores); }
    forall x | x in subs[h.sub].nodeScores ensures NoWorse(first, x) { NoWorseTransitive(first, h.ns, x); }
  }

  lemma BestsAreKept(subs: seq<SubQuestionIntent>, c: seq<Candidate>, retained: seq<Candidate>,
                     r: seq<SubQuestionIntent>)
    requires multiset(c) == multiset(Flatten(subs)) && SortedBy(c, Ranks) && multiset(retained) <= multiset(c)
    requires |r| == |subs| && Regroups(r, retained) && forall h :: h in Heads(c) ==> h in retained
    ensures KeepsBest(r, subs)
  {
    forall i | i in Active(subs) ensures r[i].nodeScores != [] && IsBestOf(r[i].nodeScores[0], subs[i].nodeScores) {
      HeadsCountActive(subs, c);
      var h :| h in Heads(c) && h.sub == i;
      KeptHeadComesFirst(subs, c, retained, r, h);
    }
  }

  /** Heads plus the top of the ranking: the result is optimal. */
  lemma FilledIsOptimal(subs: seq<SubQuestionIntent>, c: seq<Candidate>, retained: seq<Candidate>, cut: nat,
                        r: seq<SubQuestionIntent>)
    requires DistinctIds(subs) && multiset(c) == multiset(Flatten(subs)) && SortedBy(c, Ranks) && cut <= |c|
    requires multiset(retained) <= multiset(c) && |r| == |subs| && Regroups(r, retained)
    requires forall h :: h in Heads(c) ==> h in retained
    requires forall i :: 0 <= i < cut ==> c[i] in retained
    requires forall x :: x in retained ==> x in Heads(c) || x in c[..cut]
    ensures IsOptimal(r, subs, |retained|)
  {
    RankedNoRepeats(subs, c);
    Regrouped(subs, retained, r);
    SelectionAsSet(subs, c, r);
    var s := Members(retained);
    assert Members(Flatten(r)) == s by {
      forall x ensures x in Flatten(r) <==> x in retained {
        assert x in Flatten(r) <==> x in multiset(Flatten(r));
        assert x in retained <==> x in multiset(retained);
      }
    }
    forall i | cut <= i < |c| && c[i] in s ensures c[i] in Members(Heads(c)) {
      assert c[i] !in c[..cut];
    }
    forall t | IsSelection(t, subs) && Represents(t, subs) && Total(t) == |retained|
      ensures ScoreTotal(t) <= ScoreTotal(r) {
      GreedyIsOptimal(subs, c, s, cut, t);
    }
  }

  lemma RankedNoRepeats(subs: seq<SubQuestionIntent>, c: seq<Candidate>)
    requires DistinctIds(subs) && multiset(c) == multiset(Flatten(subs))
    ensures NoRepeats(c)
  {
    SelectionNoRepeats(subs, subs);
    forall x ensures multiset(c)[x] <= 1 {
      FlattenCounts(subs, x);
      if x.sub < |subs| { DistinctAtMostOnce(subs[x.sub].nodeScores, x.ns); }
    }
    AtMostOnceNoRepeats(c);
  }

  /** A list that names each sub-question at most once groups to at most one score each. */
  lemma {:induction false} OfHeads(g: seq<Candidate>, i: nat)
    requires OnePerSub(g)
    ensures |Of(g, i)| <= 1
    ensures Of(g, i) != [] ==> Candidate(i, Of(g, i)[0]) in g
    ensures HasSub(g, i) <==> Of(g, i) != []
  {
    if g != [] {
      OfHeads(g[..|g| - 1], i);
      assert g == g[..|g| - 1] + [g[|g| - 1]];
      if Of(g[..|g| - 1], i) != [] {
        var k :| 0 <= k < |g| - 1 && g[..|g| - 1][k] == Candidate(i, Of(g[..|g| - 1], i)[0]);
        assert g[k].sub == i;
      }
    }
  }

  lemma {:induction false} HeadsOfPrefix(c: seq<Candidate>, k: nat)
    requires k <= |c|
    ensures OnePerSub(Heads(c[..k])) && multiset(Heads(c[..k])) <= multiset(c)
    ensures forall h :: h in Heads(c[..k]) ==> h in Heads(c) && h in c[..k]
  {
    hide Heads, OnePerSub;
    HeadsAreCandidates(c[..k]);
    HeadsGrow(c, k);
    assert c == c[..k] + c[k..];
  }

  /** Grouping heads gives each sub-question nothing, or its head alone. */
  lemma GroupedHead(g: seq<Candidate>, r: seq<SubQuestionIntent>, i: nat)
    requires OnePerSub(g) && Regroups(r, g) && i < |r|
    ensures r[i].nodeScores != [] ==> |r[i].nodeScores| == 1 && Candidate(i, r[i].nodeScores[0]) in g
    ensures r[i].nodeScores == [] ==> !HasSub(g, i)
  {
    OfHeads(g, i);
    SortPermutes(Of(g, i), Better);
    if r[i].nodeScores != [] { assert r[i].nodeScores[0] in multiset(Of(g, i)); }
  }

  /** A candidate whose sub-question has no head in the first `k` ranks after those heads. */
  lemma DroppedRanksLower(c: seq<Candidate>, k: nat, h: Candidate, y: Candidate)
    requires SortedBy(c, Ranks) && k <= |c| && h in c[..k] && y in c && !HasSub(Heads(c[..k]), y.sub)
    ensures !Ranks(y, h)
  {
    var b :| 0 <= b < |c| && c[b] == y;
    var a :| 0 <= a < k && c[..k][a] == h;
    if b < k {
      assert c[..k][b] in c[..k];
      HeadsHaveAllSubs(c[..k], y);
      assert false;
    }
    assert c[a] == h && !Ranks(c[b], c[a]);
  }

  /** When the budget runs out among the bests, the top of them are kept. */
  lemma TopBestsAreKept(subs: seq<SubQuestionIntent>, c: seq<Candidate>, k: nat, r: seq<SubQuestionIntent>)
    requires multiset(c) == multiset(Flatten(subs)) && SortedBy(c, Ranks) && k <= |c|
    requires |r| == |subs| && Regroups(r, Heads(c[..k]))
    ensures KeepsTopBests(r, subs)
  {
    var g := Heads(c[..k]);
    HeadsOfPrefix(c, k);
    forall i | 0 <= i < |r| && r[i].nodeScores != []
      ensures |r[i].nodeScores| == 1 && IsBestOf(r[i].nodeScores[0], subs[i].nodeScores)
    {
      GroupedHead(g, r, i);
      KeptHeadComesFirst(subs, c, g, r, Candidate(i, r[i].nodeScores[0]));
    }
    forall i, j, x | 0 <= i < |r| && 0 <= j < |r| && r[i].nodeScores != [] && r[j].nodeScores == [] &&
      x in subs[j].nodeScores
      ensures NoWorse(r[i].nodeScores[0], x)
    {
      GroupedHead(g, r, i);
      GroupedHead(g, r, j);
      FlattenCounts(subs, Candidate(j, x));
      assert x in multiset(subs[j].nodeScores);
      assert Candidate(j, x) in multiset(c);
      DroppedRanksLower(c, k, Candidate(i, r[i].nodeScores[0]), Candidate(j, x));
    }
  }

  lemma HeadsSnoc(c: seq<Candidate>, k: nat)
    requires k < |c|
    ensures Heads(c[..k + 1]) == if HasSub(Heads(c[..k]), c[k].sub) then Heads(c[..k]) else Heads(c[..k]) + [c[k]]
  {
    assert c[..k + 1][..k] == c[..k];
  }

  /** The guard `containsIntentCandidate` tells a head from a filler when IDs are distinct. */
  lemma {:induction false} SameKeyIsSame(subs: seq<SubQuestionIntent>, c: seq<Candidate>, x: Candidate, y: Candidate)
    requires DistinctIds(subs) && multiset(c) == multiset(Flatten(subs)) && x in c && y in c
    requires x.sub == y.sub && x.ns.node.id == y.ns.node.id
    ensures x == y
  {
    hide Flatten, Active;
    assert x in multiset(c) && y in multiset(c);
    CandidateIsActive(subs, x);
    CandidateIsActive(subs, y);
    var a :| 0 <= a < |subs[x.sub].nodeScores| && subs[x.sub].nodeScores[a] == x.ns;
    var b :| 0 <= b < |subs[x.sub].nodeScores| && subs[x.sub].nodeScores[b] == y.ns;
  }

  lemma AllKeptIsTooMany(c: seq<Candidate>, retained: seq<Candidate>)
    requires NoRepeats(c) && forall i :: 0 <= i < |c| ==> c[i] in retained
    ensures |c| <= |retained|
  {
    MembersCount(c);
    MembersCount(retained);
    assert Members(c) <= Members(retained);
    assert |Members(retained) - Members(c)| == |Members(retained)| - |Members(c)|;
  }

  lemma DisjointParts(a: seq<Candidate>, b: seq<Candidate>, c: seq<Candidate>)
    requires multiset(a) <= multiset(c) && multiset(b) <= multiset(c) && forall x :: x in b ==> x !in a
    ensures multiset(a + b) <= multiset(c)
  {
    forall x ensures multiset(a + b)[x] <= multiset(c)[x] {
      assert multiset(a + b)[x] == multiset(a)[x] + multiset(b)[x];
      if x in multiset(b) { assert x in b && x !in multiset(a); }
    }
  }

  /** What the first `k` candidates have added to the guaranteed ones. */
  ghost predicate Fills(c: seq<Candidate>, guaranteed: seq<Candidate>, fill: seq<Candidate>, k: nat) {
    && k <= |c|
    && multiset(fill) <= multiset(c[..k])
    && (forall x :: x in fill ==> x in c[..k] && !KeyIn(guaranteed, x))
    && (forall i :: 0 <= i < k ==> c[i] in fill || KeyIn(guaranteed, c[i]))
  }

  lemma {:induction false} FillsStep(c: seq<Candidate>, guaranteed: seq<Candidate>, fill: seq<Candidate>, k: nat)
    requires k < |c| && Fills(c, guaranteed, fill, k)
    ensures Fills(c, guaranteed, if KeyIn(guaranteed, c[k]) then fill else fill + [c[k]], k + 1)
  {
    hide KeyIn;
    assert c[..k + 1] == c[..k] + [c[k]];
  }

  lemma Filled(c: seq<Candidate>, guaranteed: seq<Candidate>, fill: seq<Candidate>, k: nat)
    requires Fills(c, guaranteed, fill, k) && multiset(guaranteed) <= multiset(c)
    ensures multiset(guaranteed + fill) <= multiset(c)
    ensures forall x :: x in guaranteed + fill ==> x in guaranteed || x in c[..k]
    ensures forall i :: 0 <= i < k ==> c[i] in guaranteed + fill || KeyIn(guaranteed, c[i])
  {
    assert multiset(fill) <= multiset(c) by { assert c == c[..k] + c[k..]; }
    forall x | x in fill ensures x !in guaranteed { assert !KeyIn(guaranteed, x); }
    DisjointParts(guaranteed, fill, c);
  }

  /** The second loop of `capTotalIntents`: fill the rest of the budget in ranked order. */
  method FillBudget(c: seq<Candidate>, guaranteed: seq<Candidate>, maxIntents: int)
    returns (retained: seq<Candidate>, ghost cut: nat)
    requires |guaranteed| <= maxIntents && multiset(guaranteed) <= multiset(c)
    ensures cut <= |c| && |guaranteed| <= |retained| <= maxIntents && multiset(retained) <= multiset(c)
    ensures forall h :: h in guaranteed ==> h in retained
    ensures forall x :: x in retained ==> x in guaranteed || x in c[..cut]
    ensures forall i :: 0 <= i < cut ==> c[i] in retained || KeyIn(guaranteed, c[i])
    ensures |retained| == maxIntents || cut == |c|
    ensures var most := |guaranteed| + |Others(c, guaranteed)|;
            |retained| == if most < maxIntents then most else maxIntents
  {
    hide Fills, KeyIn, Others;
    retained := guaranteed;
    ghost var fill: seq<Candidate> := [];
    var remaining := maxIntents - |retained|;
    var k := 0;
    NothingFilled(c, guaranteed);
    while k < |c|
      invariant k <= |c| && retained == guaranteed + fill && remaining == maxIntents - |retained| >= 0
      invariant Fills(c, guaranteed, fill, k) && fill == Others(c[..k], guaranteed)
    {
      if remaining <= 0 {
        break;
      }
      FillsStep(c, guaranteed, fill, k);
      OthersStep(c, guaranteed, k);
      var known := ContainsIntentCandidate(guaranteed, c[k]);
      if !known {
        retained := retained + [c[k]];
        fill := fill + [c[k]];
        remaining := remaining - 1;
      }
      k := k + 1;
    }
    cut := k;
    OthersGrow(c, guaranteed, k);
    assert c[..|c|] == c;
    Filled(c, guaranteed, fill, k);
  }

  lemma NothingFilled(c: seq<Candidate>, guaranteed: seq<Candidate>)
    ensures Fills(c, guaranteed, [], 0) && Others(c[..0], guaranteed) == []
  {
  }

  /** The first loop of `capTotalIntents`: the best candidate of each sub-question, until the budget is full. */
  method GuaranteeBests(c: seq<Candidate>, maxIntents: int) returns (guaranteed: seq<Candidate>, ghost seen: nat)
    requires 0 < maxIntents
    ensures seen <= |c| && guaranteed == Heads(c[..seen]) && |guaranteed| <= maxIntents
    ensures |guaranteed| < maxIntents ==> seen == |c|
  {
    guaranteed := [];
    var selected: set<nat> := {};
    for k := 0 to |c|
      invariant guaranteed == Heads(c[..k]) && |guaranteed| < maxIntents
      invariant forall i: nat :: i in selected <==> HasSub(guaranteed, i)
    {
      HeadsSnoc(c, k);
      if c[k].sub in selected {
        continue;
      }
      SubsAfter(guaranteed, c[k]);
      guaranteed := guaranteed + [c[k]];
      selected := selected + {c[k].sub};
      if |guaranteed| >= maxIntents {
        seen := k + 1;
        return;
      }
    }
    seen := |c|;
  }

  method CountIntents(subs: seq<SubQuestionIntent>) returns (total: nat)
    ensures total == Total(subs)
  {
    total := 0;
    for i := 0 to |subs|
      invariant total == Total(subs[..i])
    {
      assert subs[..i + 1][..i] == subs[..i];
      total := total + |subs[i].nodeScores|;
    }
    assert subs[..|subs|] == subs;
  }

  lemma NoIntents()
    ensures Total([]) == 0
  {
  }

  method CapTotalIntents(subs: seq<SubQuestionIntent>, maxIntents: int) returns (r: seq<SubQuestionIntent>)
    ensures maxIntents <= 0 || Total(subs) <= maxIntents ==> r == subs
    ensures 0 < maxIntents < Total(subs) ==>
              var most := |Active(subs)| + |Fillers(subs)|;
              IsSelection(r, subs) && Total(r) == if most < maxIntents then most else maxIntents
    ensures 0 < maxIntents < Total(subs) ==>
              forall i :: 0 <= i < |r| ==> r[i].subQuestion == subs[i].subQuestion && InOrder(r[i].nodeScores)
    ensures 0 < maxIntents < Total(subs) && |Active(subs)| <= maxIntents ==>
              KeepsBest(r, subs) && KeepsTopFillers(r, subs)
    ensures 0 < maxIntents < Total(subs) && |Active(subs)| <= maxIntents && DistinctIds(subs) ==>
              Total(r) == maxIntents && IsOptimal(r, subs, maxIntents)
    ensures 0 < maxIntents < Total(subs) && maxIntents < |Active(subs)| ==>
              Total(r) == maxIntents && KeepsTopBests(r, subs)
  {
    hide Flatten, Heads, Others, Fillers, Active, KeepsBest, IsOptimal, KeepsTopBests, IsSelection, DistinctIds;
    hide Regroups, KeyIn, Total, Sort, Ranks, Better, OnePerSub, KeepsTopFillers, InOrder;
    if maxIntents <= 0 || |subs| == 0 {
      NoIntents();
      return subs;
    }
    var total := CountIntents(subs);
    if total <= maxIntents {
      return subs;
    }
    var c := CollectIntentCandidates(subs);
    CandidatesRanked(subs, c);
    ghost var seen: nat, cut: nat;
    var guaranteed: seq<Candidate>, retained: seq<Candidate>;
    guaranteed, seen := GuaranteeBests(c, maxIntents);
    HeadsOfPrefix(c, seen);
    if |guaranteed| >= maxIntents {
      r := RebuildSubQuestionIntents(subs, guaranteed);
      OnlyBestsKept(subs, c, seen, r);
      return;
    }
    assert c[..|c|] == c;
    retained, cut := FillBudget(c, guaranteed, maxIntents);
    r := RebuildSubQuestionIntents(subs, retained);
    FillersCount(subs, c);
    FilledResult(subs, c, retained, cut, maxIntents, r);
  }

  lemma CandidatesRanked(subs: seq<SubQuestionIntent>, c: seq<Candidate>)
    requires c == Sort(Flatten(subs), Ranks)
    ensures multiset(c) == multiset(Flatten(subs)) && SortedBy(c, Ranks) && |c| == Total(subs)
    ensures |Heads(c)| == |Active(subs)|
  {
    BetterIsAnOrder();
    SortSorted(Flatten(subs), Ranks);
    SortPermutes(Flatten(subs), Ranks);
    FlattenCounts(subs, Candidate(0, NodeScore(IntentNode("", false, "", []), 0.0)));
    HeadsCountActive(subs, c);
  }

  /** The normal return: every best, then fillers from the top of the ranking. */
  lemma FilledResult(subs: seq<SubQuestionIntent>, c: seq<Candidate>, retained: seq<Candidate>, cut: nat,
                     maxIntents: nat, r: seq<SubQuestionIntent>)
    requires multiset(c) == multiset(Flatten(subs)) && SortedBy(c, Ranks) && maxIntents < |c| && cut <= |c|
    requires |retained| <= maxIntents && multiset(retained) <= multiset(c) && |r| == |subs| && Regroups(r, retained)
    requires forall h :: h in Heads(c) ==> h in retained
    requires forall x :: x in retained ==> x in Heads(c) || x in c[..cut]
    requires forall i :: 0 <= i < cut ==> c[i] in retained || KeyIn(Heads(c), c[i])
    requires |retained| == maxIntents || cut == |c|
    ensures IsSelection(r, subs) && Total(r) == |retained| && KeepsBest(r, subs)
    ensures forall i :: 0 <= i < |r| ==> InOrder(r[i].nodeScores)
    ensures KeepsTopFillers(r, subs)
    ensures DistinctIds(subs) ==> Total(r) == maxIntents && IsOptimal(r, subs, maxIntents)
  {
    Regrouped(subs, retained, r);
    BestsAreKept(subs, c, retained, r);
    TopFillersAreKept(subs, c, retained, cut, r);
    if DistinctIds(subs) {
      HeadsAreCandidates(c);
      forall i | 0 <= i < cut ensures c[i] in retained {
        if c[i] !in retained {
          var g := Heads(c);
          var j :| 0 <= j < |g| && g[j].sub == c[i].sub && g[j].ns.node.id == c[i].ns.node.id;
          assert g[j] in g;
          SameKeyIsSame(subs, c, g[j], c[i]);
        }
      }
      RankedNoRepeats(subs, c);
      if |retained| < maxIntents { AllKeptIsTooMany(c, retained); }
      FilledIsOptimal(subs, c, retained, cut, r);
    }
  }

  lemma SubsAfter(g: seq<Candidate>, x: Candidate)
    ensures forall i: nat :: HasSub(g + [x], i) <==> HasSub(g, i) || i == x.sub
  {
    forall i: nat ensures HasSub(g + [x], i) <==> HasSub(g, i) || i == x.sub {
      if k :| 0 <= k < |g| && g[k].sub == i { assert (g + [x])[k].sub == i; }
      assert (g + [x])[|g|] == x;
    }
  }

  /** The early return: the first `k` ranked candidates already hold the whole budget of bests. */
  lemma {:induction false} OnlyBestsKept(subs: seq<SubQuestionIntent>, c: seq<Candidate>, k: nat,
                                         r: seq<SubQuestionIntent>)
    requires multiset(c) == multiset(Flatten(subs)) && SortedBy(c, Ranks) && k <= |c|
    requires |r| == |subs| && Regroups(r, Heads(c[..k]))
    ensures IsSelection(r, subs) && Total(r) == |Heads(c[..k])| <= |Active(subs)|
    ensures forall i :: 0 <= i < |r| ==> InOrder(r[i].nodeScores)
    ensures KeepsTopBests(r, subs)
    ensures |Active(subs)| <= |Heads(c[..k])| ==> KeepsBest(r, subs) && KeepsTopFillers(r, subs)
    ensures |Active(subs)| <= |Heads(c[..k])| && DistinctIds(subs) ==> IsOptimal(r, subs, |Heads(c[..k])|)
  {
    hide Heads, Flatten, Total, SortedBy, Active;
    var g := Heads(c[..k]);
    HeadsAreCandidates(c[..k]);
    assert multiset(g) <= multiset(c) by { assert c == c[..k] + c[k..]; }
    Regrouped(subs, g, r);
    TopBestsAreKept(subs, c, k, r);
    HeadsGrow(c, k);
    HeadsCountActive(subs, c);
    if |Active(subs)| <= |g| {
      assert g == Heads(c);
      BestsAreKept(subs, c, g, r);
      TopFillersAreKept(subs, c, g, 0, r);
      if DistinctIds(subs) { FilledIsOptimal(subs, c, g, 0, r); }
    }
  }
}
