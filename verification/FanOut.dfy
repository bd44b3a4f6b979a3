/**
 The parallel fan-out of `MultiChannelRetrievalEngine.Retrieve` (`internal/biz/rag/retrieve_multi.go`):
 one worker for each enabled channel, each with a search of its own and perhaps a timer, and a collector
 that takes as many outcomes from a queue as there are workers.

 A run is any interleaving of the atomic steps of the searches, the workers and the collector.
 */
module FanOut {
  import opened Basics
  import opened RankFusion

  datatype Outcome = Returned(result: Result) | Failed(error: string)

  datatype Message = Message(channel: nat, outcome: Outcome)

  const NO_RESULT := Returned(Result(OtherChannel(""), []))

  /**
   `active` are the enabled ones of the `n` channels, `answers` what the searches left for their workers,
   `sent` the workers that have ended and `timedOut` those of them that gave up waiting.
   */
  datatype State = State(n: nat, active: set<nat>, timeouts: bool, answers: map<nat, Outcome>,
                         sent: set<nat>, timedOut: set<nat>, queue: seq<Message>,
                         results: map<nat, Outcome>, received: nat)

  datatype Step =
    | Answer(channel: nat, outcome: Outcome)
    | Forward(channel: nat)
    | GiveUp(channel: nat)
    | Receive

  function Init(n: nat, active: set<nat>, timeouts: bool): State {
    State(n, active, timeouts, map[], {}, {}, [], map[], 0)
  }

  predicate Enabled(s: State, step: Step) {
    match step
    case Answer(i, _) => i in s.active && i !in s.answers
    case Forward(i) => i in s.active && i !in s.sent && i in s.answers
    case GiveUp(i) => i in s.active && i !in s.sent && s.timeouts
    case Receive => s.received < |s.active| && s.queue != []
  }

  function Apply(s: State, step: Step): State
    requires Enabled(s, step)
  {
    match step
    case Answer(i, outcome) => s.(answers := s.answers[i := outcome])
    case Forward(i) => s.(sent := s.sent + {i}, queue := s.queue + [Message(i, s.answers[i])])
    case GiveUp(i) => s.(sent := s.sent + {i}, timedOut := s.timedOut + {i}, queue := s.queue + [Message(i, NO_RESULT)])
    case Receive =>
      s.(queue := s.queue[1..], results := s.results[s.queue[0].channel := s.queue[0].outcome],
         received := s.received + 1)
  }

  predicate Legal(s: State, steps: seq<Step>)
    decreases |steps|
  {
    steps == [] || (Enabled(s, steps[0]) && Legal(Apply(s, steps[0]), steps[1..]))
  }

  function Run(s: State, steps: seq<Step>): State
    requires Legal(s, steps)
    decreases |steps|
  {
    if steps == [] then s else Run(Apply(s, steps[0]), steps[1..])
  }

  /** `s` is the state after some run over these channels. */
  ghost predicate Reachable(s: State) {
    && (forall i :: i in s.active ==> i < s.n)
    && exists steps :: Legal(Init(s.n, s.active, s.timeouts), steps) && s == Run(Init(s.n, s.active, s.timeouts), steps)
  }

  /** The collector has made all its rounds. */
  predicate Complete(s: State) {
    s.received == |s.active|
  }

  /** What the worker of channel `i` sends. */
  function Fate(s: State, i: nat): Outcome
    requires i in s.timedOut || i in s.answers
  {
    if i in s.timedOut then NO_RESULT else s.answers[i]
  }

  ghost predicate WorkersInv(s: State) {
    && s.timedOut <= s.sent <= s.active
    && s.answers.Keys <= s.active
    && (forall i :: i in s.sent ==> i in s.timedOut || i in s.answers)
  }

  ghost predicate DistinctChannels(queue: seq<Message>) {
    forall j, k :: 0 <= j < k < |queue| ==> queue[j].channel != queue[k].channel
  }

  /** A waiting message is the one its worker sent, and has not been received. */
  ghost predicate QueueMatches(s: State)
    requires WorkersInv(s)
  {
    forall k :: 0 <= k < |s.queue| ==>
      && s.queue[k].channel in s.sent && s.queue[k].channel !in s.results
      && s.queue[k].outcome == Fate(s, s.queue[k].channel)
  }

  ghost predicate ResultsMatch(s: State)
    requires WorkersInv(s)
  {
    s.results.Keys <= s.sent && forall i :: i in s.results ==> s.results[i] == Fate(s, i)
  }

  ghost predicate CountInv(s: State) {
    && s.received == |s.results|
    && s.received + |s.queue| == |s.sent|
  }

  ghost predicate Inv(s: State) {
    WorkersInv(s) && DistinctChannels(s.queue) && QueueMatches(s) && ResultsMatch(s) && CountInv(s)
  }

  lemma SendKeepsDistinct(s: State, m: Message)
    requires WorkersInv(s) && DistinctChannels(s.queue) && QueueMatches(s) && m.channel !in s.sent
    ensures DistinctChannels(s.queue + [m])
  {
  }

  lemma {:induction false} SendKeepsMatches(s: State, t: State, i: nat, outcome: Outcome)
    requires Inv(s) && i in s.active && i !in s.sent
    requires (t.timedOut == s.timedOut && i in s.answers && outcome == s.answers[i]) ||
             (t.timedOut == s.timedOut + {i} && outcome == NO_RESULT)
    requires t == s.(sent := s.sent + {i}, timedOut := t.timedOut, queue := s.queue + [Message(i, outcome)])
    ensures WorkersInv(t) && QueueMatches(t) && ResultsMatch(t)
  {
    hide DistinctChannels, CountInv;
    forall k | 0 <= k < |t.queue|
      ensures t.queue[k].channel in t.sent && t.queue[k].channel !in t.results &&
              t.queue[k].outcome == Fate(t, t.queue[k].channel)
    {
      if k < |s.queue| { assert t.queue[k] == s.queue[k]; }
    }
  }

  lemma {:induction false} SendKeepsInv(s: State, i: nat, outcome: Outcome, timedOut: set<nat>)
    requires Inv(s) && i in s.active && i !in s.sent
    requires (timedOut == s.timedOut && i in s.answers && outcome == s.answers[i]) ||
             (timedOut == s.timedOut + {i} && outcome == NO_RESULT)
    ensures Inv(s.(sent := s.sent + {i}, timedOut := timedOut, queue := s.queue + [Message(i, outcome)]))
  {
    hide DistinctChannels, QueueMatches, ResultsMatch, WorkersInv;
    SendKeepsDistinct(s, Message(i, outcome));
    SendKeepsMatches(s, s.(sent := s.sent + {i}, timedOut := timedOut, queue := s.queue + [Message(i, outcome)]), i,
                     outcome);
  }

  lemma ReceiveKeepsDistinct(queue: seq<Message>)
    requires queue != [] && DistinctChannels(queue)
    ensures DistinctChannels(queue[1..])
    ensures forall k :: 0 <= k < |queue| - 1 ==> queue[1..][k].channel != queue[0].channel
  {
  }

  lemma MapGrows<V>(m: map<nat, V>, k: nat, v: V)
    requires k !in m
    ensures |m[k := v]| == |m| + 1
  {
    assert m[k := v].Keys == m.Keys + {k};
    assert |m[k := v]| == |m[k := v].Keys| && |m| == |m.Keys|;
  }

  lemma ReceiveKeepsCount(s: State)
    requires Enabled(s, Receive) && CountInv(s) && s.queue[0].channel !in s.results
    ensures CountInv(Apply(s, Receive))
  {
    MapGrows(s.results, s.queue[0].channel, s.queue[0].outcome);
    assert |s.queue[1..]| == |s.queue| - 1;
  }

  lemma {:induction false} ReceiveKeepsQueue(s: State, k: nat)
    requires Inv(s) && Enabled(s, Receive) && k < |s.queue| - 1
    ensures var t := Apply(s, Receive);
            && WorkersInv(t)
            && t.queue[k].channel in t.sent && t.queue[k].channel !in t.results
            && t.queue[k].outcome == Fate(t, t.queue[k].channel)
  {
    hide CountInv;
    assert s.queue[1..][k] == s.queue[k + 1];
    assert s.queue[0].channel != s.queue[k + 1].channel;
  }

  lemma {:induction false} ReceiveKeepsInv(s: State)
    requires Inv(s) && Enabled(s, Receive)
    ensures Inv(Apply(s, Receive))
  {
    hide DistinctChannels, CountInv;
    ReceiveKeepsDistinct(s.queue);
    ReceiveKeepsCount(s);
    var t := Apply(s, Receive);
    forall k | 0 <= k < |t.queue|
      ensures t.queue[k].channel in t.sent && t.queue[k].channel !in t.results &&
              t.queue[k].outcome == Fate(t, t.queue[k].channel)
    {
      ReceiveKeepsQueue(s, k);
    }
  }

  lemma {:induction false} AnswerKeepsInv(s: State, i: nat, outcome: Outcome)
    requires Inv(s) && Enabled(s, Answer(i, outcome))
    ensures Inv(Apply(s, Answer(i, outcome)))
  {
    hide DistinctChannels;
    var t := Apply(s, Answer(i, outcome));
    assert forall j :: j in s.sent ==> Fate(t, j) == Fate(s, j);
  }

  lemma {:induction false} StepKeepsInv(s: State, step: Step)
    requires Inv(s) && Enabled(s, step)
    ensures Inv(Apply(s, step))
  {
    hide Inv;
    match step
    case Answer(i, outcome) => AnswerKeepsInv(s, i, outcome);
    case Forward(i) =>
      SendKeepsInv(s, i, s.answers[i], s.timedOut);
      assert s.(sent := s.sent + {i}, timedOut := s.timedOut, queue := s.queue + [Message(i, s.answers[i])]) ==
             Apply(s, step);
    case GiveUp(i) => SendKeepsInv(s, i, NO_RESULT, s.timedOut + {i});
    case Receive => ReceiveKeepsInv(s);
  }

  lemma {:induction false} RunKeepsInv(s: State, steps: seq<Step>)
    requires Inv(s) && Legal(s, steps)
    ensures var t := Run(s, steps); Inv(t) && t.n == s.n && t.active == s.active && t.timeouts == s.timeouts
    decreases |steps|
  {
    if steps != [] {
      StepKeepsInv(s, steps[0]);
      RunKeepsInv(Apply(s, steps[0]), steps[1..]);
    }
  }

  lemma ReachableKeepsInv(s: State)
    requires Reachable(s)
    ensures Inv(s)
  {
    var steps :| Legal(Init(s.n, s.active, s.timeouts), steps) && s == Run(Init(s.n, s.active, s.timeouts), steps);
    RunKeepsInv(Init(s.n, s.active, s.timeouts), steps);
  }

  // ----- What every run promises -----

  /** The queue has room for every worker: no send ever waits, even after the collector is done. */
  lemma SendersNeverBlock(s: State)
    requires Reachable(s)
    ensures |s.queue| <= s.n && s.received <= |s.active|
    ensures Complete(s) ==> s.queue == []
  {
    ReachableKeepsInv(s);
    SubsetIsNoLarger(s.sent, s.active);
    ChannelsBelow(s.active, s.n);
  }

  lemma {:induction false} ChannelsBelow(a: set<nat>, n: nat)
    requires forall i :: i in a ==> i < n
    ensures |a| <= n
    decreases n
  {
    if n == 0 {
      assert a == {};
    } else {
      ChannelsBelow(a - {n - 1}, n - 1);
      assert a <= (a - {n - 1}) + {n - 1};
      SubsetIsNoLarger(a, (a - {n - 1}) + {n - 1});
    }
  }

  /** When the collector is done it has the one outcome of every enabled channel, and nothing else. */
  lemma OneOutcomeForEachChannel(s: State)
    requires Reachable(s) && Complete(s)
    ensures s.results.Keys == s.active == s.sent
    ensures forall i :: i in s.active ==> (i in s.timedOut || i in s.answers) && s.results[i] == Fate(s, i)
  {
    ReachableKeepsInv(s);
    SubsetIsNoLarger(s.sent, s.active);
    SubsetOfSameSize(s.sent, s.active);
    assert |s.results.Keys| == |s.results|;
    SubsetOfSameSize(s.results.Keys, s.active);
  }

  /** Until the collector is done, it can receive, or a worker can go on, or a search without a timer is still out. */
  lemma NeverStuck(s: State)
    requires Reachable(s) && !Complete(s)
    ensures || Enabled(s, Receive)
            || (exists i :: i in s.active && (Enabled(s, Forward(i)) || Enabled(s, GiveUp(i))))
            || (exists i :: i in s.active && i !in s.answers && !s.timeouts)
  {
    ReachableKeepsInv(s);
    SendersNeverBlock(s);
    if s.queue == [] {
      assert s.sent != s.active;
      var i :| i in s.active && i !in s.sent;
      if i !in s.answers && s.timeouts { assert Enabled(s, GiveUp(i)); }
      if i in s.answers { assert Enabled(s, Forward(i)); }
    }
  }

  /** How many steps are behind a state. */
  function Progress(s: State): nat {
    |s.answers| + |s.sent| + s.received
  }

  lemma {:induction false} StepIsProgress(s: State, step: Step)
    requires Inv(s) && Enabled(s, step)
    ensures Progress(Apply(s, step)) == Progress(s) + 1
  {
    hide Inv;
    if step.Answer? { MapGrows(s.answers, step.channel, step.outcome); }
  }

  lemma {:induction false} RunIsProgress(s: State, steps: seq<Step>)
    requires Inv(s) && Legal(s, steps)
    ensures Progress(Run(s, steps)) == Progress(s) + |steps|
    decreases |steps|
  {
    if steps != [] {
      StepKeepsInv(s, steps[0]);
      StepIsProgress(s, steps[0]);
      RunIsProgress(Apply(s, steps[0]), steps[1..]);
    }
  }

  /** Every run ends: there are at most three steps for each enabled channel. */
  lemma RunsAreBounded(n: nat, active: set<nat>, timeouts: bool, steps: seq<Step>)
    requires Legal(Init(n, active, timeouts), steps)
    ensures |steps| <= 3 * |active|
  {
    var s := Init(n, active, timeouts);
    var t := Run(s, steps);
    RunKeepsInv(s, steps);
    RunIsProgress(s, steps);
    SubsetIsNoLarger(t.answers.Keys, active);
    SubsetIsNoLarger(t.sent, active);
    assert |t.answers.Keys| == |t.answers|;
  }

  // ----- Collecting -----

  /** The outcome slots, in channel order; a channel that is not enabled has an empty result. */
  function Slots(s: State, i: nat): seq<Outcome>
  {
    if i == 0 then [] else Slots(s, i - 1) + [if i - 1 in s.results then s.results[i - 1] else NO_RESULT]
  }

  predicate Contributes(o: Outcome) {
    o.Returned? && o.result.chunks != []
  }

  /** The results of the channels that found something, in channel order. */
  function Contributions(slots: seq<Outcome>): seq<Result> {
    if slots == [] then []
    else
      var last := slots[|slots| - 1];
      Contributions(slots[..|slots| - 1]) + if Contributes(last) then [last.result] else []
  }

  lemma ContributionsStep(slots: seq<Outcome>, i: nat)
    requires i < |slots|
    ensures Contributions(slots[..i + 1]) ==
            if Contributes(slots[i]) then Contributions(slots[..i]) + [slots[i].result] else Contributions(slots[..i])
  {
    assert slots[..i + 1][..i] == slots[..i];
  }

  lemma FlattenAppend(results: seq<Result>, r: Result)
    ensures Flatten(results + [r]) == Flatten(results) + r.chunks
  {
    assert (results + [r])[..|results|] == results;
  }

  /** The loop that follows the collection. */
  method Collect(slots: seq<Outcome>) returns (allChunks: seq<Chunk>, allResults: seq<Result>)
    ensures allResults == Contributions(slots)
    ensures allChunks == Flatten(Contributions(slots))
  {
    hide Flatten;
    allChunks, allResults := [], [];
    NothingFlattened();
    for i := 0 to |slots|
      invariant allResults == Contributions(slots[..i]) && allChunks == Flatten(allResults)
    {
      ContributionsStep(slots, i);
      var r := slots[i];
      if r.Returned? && |r.result.chunks| > 0 {
        FlattenAppend(allResults, r.result);
        allChunks := allChunks + r.result.chunks;
        allResults := allResults + [r.result];
      }
    }
    assert slots[..|slots|] == slots;
  }

  lemma NothingFlattened()
    ensures Flatten([]) == []
  {
  }

  lemma {:induction false} SameSlots(s: State, t: State, i: nat)
    requires s.results == t.results
    ensures Slots(s, i) == Slots(t, i)
  {
    if i > 0 { SameSlots(s, t, i - 1); }
  }

  /**
   Schedule independence: two complete runs over the same channels, in which the same workers give up and
   the other searches answer the same, collect the same list, however their steps interleave.
   */
  lemma OrderDoesNotMatter(s: State, t: State)
    requires Reachable(s) && Reachable(t) && Complete(s) && Complete(t)
    requires s.n == t.n && s.active == t.active && s.timedOut == t.timedOut
    requires forall i :: i in s.active && i !in s.timedOut && i in s.answers && i in t.answers ==>
               s.answers[i] == t.answers[i]
    ensures Contributions(Slots(s, s.n)) == Contributions(Slots(t, t.n))
  {
    OneOutcomeForEachChannel(s);
    OneOutcomeForEachChannel(t);
    assert s.results == t.results;
    SameSlots(s, t, s.n);
  }

  lemma SlotsStep(s: State, i: nat)
    requires i > 0
    ensures var before := Contributions(Slots(s, i - 1));
            var slot := if i - 1 in s.results then s.results[i - 1] else NO_RESULT;
            Contributions(Slots(s, i)) == if Contributes(slot) then before + [slot.result] else before
  {
    var slots := Slots(s, i);
    assert slots[..|slots| - 1] == Slots(s, i - 1);
  }

  /** A collected result was answered, without an error, by an enabled channel whose worker did not give up. */
  lemma {:induction false} OnlyAnswersContribute(s: State, i: nat, r: Result)
    requires Reachable(s) && Complete(s) && i <= s.n && r in Contributions(Slots(s, i))
    ensures exists c :: c in s.active && c < i && c !in s.timedOut && c in s.answers &&
                        s.answers[c] == Returned(r) && r.chunks != []
    decreases i
  {
    hide Reachable, Complete;
    if i > 0 {
      SlotsStep(s, i);
      OneOutcomeForEachChannel(s);
      if r in Contributions(Slots(s, i - 1)) {
        OnlyAnswersContribute(s, i - 1, r);
      }
    }
  }

  /** And every such answer is collected. */
  lemma {:induction false} EveryAnswerContributes(s: State, i: nat, c: nat)
    requires Reachable(s) && Complete(s) && c < i <= s.n && c in s.active && c !in s.timedOut && c in s.answers
    requires Contributes(s.answers[c])
    ensures s.answers[c].result in Contributions(Slots(s, i))
    decreases i
  {
    hide Reachable, Complete, Contributions, Slots;
    SlotsStep(s, i);
    OneOutcomeForEachChannel(s);
    if c < i - 1 { EveryAnswerContributes(s, i - 1, c); }
  }
}
