/**
 No cancel is lost (`internal/biz/rag/stream_task_manager.go`).

 The publisher sets the marker before it broadcasts, and `register` enters the task before it reads
 the marker. So a cancel either finds the task or is found by it, in every interleaving.
 */
module StreamCancelDelivery {
  import opened Text
  import opened StreamCancel

  /**
   What must go well for `id` on `node`: its marker can be read there, is set and kept, its cancels are
   broadcast, and none of them is lost there. Commands and messages of other IDs may fail as they like.
   */
  predicate Reliable(s: State, step: Step, node: nat, id: string) {
    match step
    case ReadMarker(k, ok) => k < |s.tasks| && s.tasks[k].id == id && s.tasks[k].node == node ==> ok
    case SetMarker(c, ok) => c < |s.calls| && s.calls[c].id == id ==> ok
    case Publish(c, ok) => c < |s.calls| && s.calls[c].id == id ==> ok
    case UnregisterRedis(other) => other != id
    case LapseMarker(other) => other != id
    case LoseMessage(n, payload) => n == node ==> SplitPayload(payload).0 != id
    case _ => true
  }

  /** The broadcast of a request for `id` is taken for one that may cancel `id`, as it is if both are plain. */
  predicate Arrives(id: string, requester: string, owner: string) {
    var (a, u) := SplitPayload(Payload(id, requester));
    a == id && (u == SYSTEM_REQUESTER || (owner != "" && u == owner))
  }

  lemma PlainArrives(id: string, requester: string, owner: string)
    requires Plain(id, requester) && (requester == SYSTEM_REQUESTER || (owner != "" && requester == owner))
    ensures Arrives(id, requester, owner)
  {
    PayloadRoundTrip(id, requester);
  }

  /** Whoever asks for `id` to be cancelled is the system or its owner, and the broadcast says so. */
  ghost predicate OnlyAllowedAsk(step: Step, id: string, owner: string) {
    forall r :: Requests(step, id, r) ==>
      (r == SYSTEM_REQUESTER || (owner != "" && r == owner)) && Arrives(id, r, owner)
  }

  predicate ThroughRedis(s: State, c: Call, id: string)
    requires c.node < |s.linked|
  {
    c.id == id && s.linked[c.node]
  }

  predicate MarkerRead(t: Task) {
    t.pc.Decided? || t.pc.Returned?
  }

  predicate IsMarked(pc: CallPc) {
    pc.Marked? || pc.Published?
  }

  ghost predicate MarkersHold(s: State, id: string, owner: string)
    requires WellFormed(s)
  {
    && (id in s.markers ==> IsRequesterAllowed(owner, s.markers[id]))
    && (forall c :: 0 <= c < |s.calls| && ThroughRedis(s, s.calls[c], id) && IsMarked(s.calls[c].pc) ==>
          id in s.markers)
  }

  ghost predicate CallsAllowed(s: State, id: string, owner: string) {
    forall c :: 0 <= c < |s.calls| && s.calls[c].id == id ==>
      IsRequesterAllowed(owner, s.calls[c].requester) && Arrives(id, s.calls[c].requester, owner)
  }

  /** The broadcasts of all finished cancels of `id` are still on their way to `node`. */
  ghost predicate AllOnTheirWay(s: State, node: nat, id: string)
    requires WellFormed(s) && node < |s.inbox|
  {
    forall c :: 0 <= c < |s.calls| && ThroughRedis(s, s.calls[c], id) && s.calls[c].pc.Published? ==>
      Payload(id, s.calls[c].requester) in s.inbox[node]
  }

  /** A current task that has read the marker is cancelled, is about to be, or will hear of every cancel. */
  ghost predicate NothingMissed(s: State, node: nat, id: string, owner: string)
    requires WellFormed(s) && node < |s.inbox|
  {
    (node, id) in s.current ==>
      var t := s.tasks[s.current[(node, id)]];
      t.owner == owner && MarkerRead(t) ==> WillBeCancelled(t) || AllOnTheirWay(s, node, id)
  }

  ghost predicate Inv(s: State, node: nat, id: string, owner: string) {
    WellFormed(s) && node < |s.inbox| && s.linked[node] && !IsBlank(id) &&
    MarkersHold(s, id, owner) && CallsAllowed(s, id, owner) && NothingMissed(s, node, id, owner)
  }

  lemma {:induction false} RegisterStepsMissNothing(s: State, k: nat, ok: bool, node: nat, id: string, owner: string)
    requires Inv(s, node, id, owner)
    ensures Inv(SaveOwnerStep(s, k, ok), node, id, owner)
    ensures Inv(FinishRegisterStep(s, k), node, id, owner)
  {
    hide IsBlank, Arrives, IsRequesterAllowed, Payload;
  }

  lemma ReadMarkerMissesNothing(s: State, k: nat, ok: bool, node: nat, id: string, owner: string)
    requires Inv(s, node, id, owner) && Reliable(s, ReadMarker(k, ok), node, id)
    ensures Inv(ReadMarkerStep(s, k, ok), node, id, owner)
  {
    if k < |s.tasks| && s.tasks[k].id == id && s.tasks[k].node == node && s.tasks[k].owner == owner &&
       id !in s.markers {
      assert AllOnTheirWay(s, node, id);
    }
  }

  lemma InsertMissesNothing(s: State, n: nat, i: string, o: string, node: nat, id: string, owner: string)
    requires Inv(s, node, id, owner)
    ensures Inv(RegisterInsertStep(s, n, i, o), node, id, owner)
  {
  }

  lemma {:induction false} RequestMissesNothing(s: State, n: nat, i: string, r: string, ok: bool, node: nat,
                                                id: string, owner: string)
    requires Inv(s, node, id, owner) && (i == id ==> IsRequesterAllowed(owner, r) && Arrives(id, r, owner))
    ensures Inv(CancelByUserStep(s, n, i, r, ok), node, id, owner)
    ensures r == SYSTEM_REQUESTER ==> Inv(CancelBySystemStep(s, n, i), node, id, owner)
  {
    hide IsBlank, Payload, Arrives;
  }

  lemma CancelLocalMissesNothing(s: State, n: nat, i: string, r: string, node: nat, id: string, owner: string)
    requires Inv(s, node, id, owner)
    ensures Inv(CancelLocal(s, n, i, r), node, id, owner)
  {
  }

  lemma CancelHereMissesNothing(s: State, c: nat, node: nat, id: string, owner: string)
    requires Inv(s, node, id, owner)
    ensures Inv(CancelHereStep(s, c), node, id, owner)
  {
    if c < |s.calls| {
      CancelLocalMissesNothing(s, s.calls[c].node, s.calls[c].id, s.calls[c].requester, node, id, owner);
    }
  }

  lemma SetMarkerMissesNothing(s: State, c: nat, ok: bool, node: nat, id: string, owner: string)
    requires Inv(s, node, id, owner) && Reliable(s, SetMarker(c, ok), node, id)
    ensures Inv(SetMarkerStep(s, c, ok), node, id, owner)
  {
  }

  lemma PublishMissesNothing(s: State, c: nat, ok: bool, node: nat, id: string, owner: string)
    requires Inv(s, node, id, owner) && Reliable(s, Publish(c, ok), node, id)
    ensures Inv(PublishStep(s, c, ok), node, id, owner)
  {
    var r := PublishStep(s, c, ok);
    if c < |s.calls| && s.calls[c].pc == Marked {
      assert forall p :: p in s.inbox[node] ==> p in r.inbox[node];
      assert ok ==> Payload(s.calls[c].id, s.calls[c].requester) in r.inbox[node];
    }
  }

  /** A delivered broadcast of `id` cancels the current task, so it may leave the inbox. */
  lemma {:induction false} DeliveredHereCancels(s: State, payload: string, r: string, node: nat, id: string,
                                                owner: string)
    requires Inv(s, node, id, owner) && payload in s.inbox[node]
    requires SplitPayload(payload) == (id, r) && IsRequesterAllowed(owner, r)
    ensures id != "" && Inv(CancelLocal(TakeMessage(s, node, payload), node, id, r), node, id, owner)
  {
    assert id != "";
    hide IsBlank, SplitPayload, Payload, Arrives;
  }

  /** Any other broadcast is not one of a finished cancel of `id`. */
  lemma {:induction false} TakenElsewhere(s: State, n: nat, payload: string, node: nat, id: string, owner: string)
    requires Inv(s, node, id, owner) && n < |s.inbox| && payload in s.inbox[n]
    requires var (i, r) := SplitPayload(payload); !(n == node && i == id && IsRequesterAllowed(owner, r))
    ensures Inv(TakeMessage(s, n, payload), node, id, owner)
  {
    hide IsBlank, SplitPayload, Payload;
    var taken := TakeMessage(s, n, payload);
    forall c | 0 <= c < |s.calls| && s.calls[c].id == id
      ensures Payload(id, s.calls[c].requester) in s.inbox[node] ==>
                Payload(id, s.calls[c].requester) in taken.inbox[node]
    {
      assert Arrives(id, s.calls[c].requester, owner);
    }
  }

  lemma {:induction false} LossMissesNothing(s: State, n: nat, payload: string, node: nat, id: string, owner: string)
    requires Inv(s, node, id, owner) && Reliable(s, LoseMessage(n, payload), node, id)
    ensures Inv(TakeMessage(s, n, payload), node, id, owner)
  {
    assert WellFormed(s) && node < |s.inbox|;
    hide Inv, SplitPayload, IsRequesterAllowed;
    if n < |s.inbox| {
      if payload in s.inbox[n] {
        TakenElsewhere(s, n, payload, node, id, owner);
      } else {
        assert s.inbox[n] - multiset{payload} == s.inbox[n];
        assert s.inbox[n := s.inbox[n]] == s.inbox;
      }
    }
  }

  lemma {:induction false} DeliverMissesNothing(s: State, n: nat, payload: string, node: nat, id: string, owner: string)
    requires Inv(s, node, id, owner)
    ensures Inv(DeliverStep(s, n, payload), node, id, owner)
  {
    assert WellFormed(s) && node < |s.inbox|;
    hide Inv, SplitPayload, CancelLocal, TakeMessage, IsRequesterAllowed;
    if n < |s.inbox| && payload in s.inbox[n] {
      var (i, r) := SplitPayload(payload);
      if n == node && i == id && IsRequesterAllowed(owner, r) {
        DeliveredHereCancels(s, payload, r, node, id, owner);
      } else {
        TakenElsewhere(s, n, payload, node, id, owner);
        CancelLocalMissesNothing(TakeMessage(s, n, payload), n, i, r, node, id, owner);
      }
    }
  }

  lemma StepMissesNothing(s: State, step: Step, node: nat, id: string, owner: string)
    requires Inv(s, node, id, owner) && Reliable(s, step, node, id) && OnlyAllowedAsk(step, id, owner)
    ensures Inv(Apply(s, step), node, id, owner)
  {
    match step
    case RegisterInsert(n, i, o) => InsertMissesNothing(s, n, i, o, node, id, owner);
    case SaveOwner(k, ok) => RegisterStepsMissNothing(s, k, ok, node, id, owner);
    case ReadMarker(k, ok) => ReadMarkerMissesNothing(s, k, ok, node, id, owner);
    case FinishRegister(k) => RegisterStepsMissNothing(s, k, true, node, id, owner);
    case CancelByUser(n, i, r, ok) =>
      assert Requests(step, i, r);
      RequestMissesNothing(s, n, i, r, ok, node, id, owner);
    case CancelBySystem(n, i) =>
      assert Requests(step, i, SYSTEM_REQUESTER);
      RequestMissesNothing(s, n, i, SYSTEM_REQUESTER, true, node, id, owner);
    case CancelHere(c) => CancelHereMissesNothing(s, c, node, id, owner);
    case SetMarker(c, ok) => SetMarkerMissesNothing(s, c, ok, node, id, owner);
    case Publish(c, ok) => PublishMissesNothing(s, c, ok, node, id, owner);
    case Deliver(n, payload) => DeliverMissesNothing(s, n, payload, node, id, owner);
    case UnregisterLocal(n, i) =>
    case UnregisterRedis(i) =>
    case LapseOwner(i) =>
    case LapseMarker(i) =>
    case LoseMessage(n, payload) => LossMissesNothing(s, n, payload, node, id, owner);
  }

  /** In each state of the run the next step is reliable, and only those who may ask for `id`. */
  ghost predicate AllReliable(linked: seq<bool>, steps: seq<Step>, node: nat, id: string, owner: string) {
    forall i :: 0 <= i < |steps| ==>
      Reliable(Run(linked, steps[..i]), steps[i], node, id) && OnlyAllowedAsk(steps[i], id, owner)
  }

  lemma {:induction false} ReliableBefore(linked: seq<bool>, steps: seq<Step>, node: nat, id: string, owner: string)
    requires steps != [] && AllReliable(linked, steps, node, id, owner)
    ensures AllReliable(linked, steps[..|steps| - 1], node, id, owner)
    ensures Reliable(Run(linked, steps[..|steps| - 1]), steps[|steps| - 1], node, id)
    ensures OnlyAllowedAsk(steps[|steps| - 1], id, owner)
  {
    hide Run, Reliable, OnlyAllowedAsk;
    var front := steps[..|steps| - 1];
    forall i | 0 <= i < |front|
      ensures Reliable(Run(linked, front[..i]), front[i], node, id) && OnlyAllowedAsk(front[i], id, owner) {
      assert front[..i] == steps[..i] && front[i] == steps[i];
    }
  }

  lemma {:induction false} RunMissesNothing(linked: seq<bool>, steps: seq<Step>, node: nat, id: string, owner: string)
    requires node < |linked| && linked[node] && !IsBlank(id)
    requires AllReliable(linked, steps, node, id, owner)
    ensures Inv(Run(linked, steps), node, id, owner)
  {
    hide Apply, AllReliable, Reliable, OnlyAllowedAsk;
    if steps != [] {
      ReliableBefore(linked, steps, node, id, owner);
      RunMissesNothing(linked, steps[..|steps| - 1], node, id, owner);
      StepMissesNothing(Run(linked, steps[..|steps| - 1]), steps[|steps| - 1], node, id, owner);
    }
  }

  /** `k` is the current task of its ID on a node with Redis, and `register` has returned. */
  ghost predicate IsRegistered(s: State, k: nat) {
    && k < |s.tasks| && s.tasks[k].node < |s.linked| && s.linked[s.tasks[k].node]
    && !IsBlank(s.tasks[k].id) && s.tasks[k].pc == Returned
    && (s.tasks[k].node, s.tasks[k].id) in s.current && s.current[(s.tasks[k].node, s.tasks[k].id)] == k
  }

  /** Call `c` has cancelled the ID of task `k` through Redis, and its message is not on its way any more. */
  ghost predicate IsDelivered(s: State, c: nat, k: nat) {
    && c < |s.calls| && k < |s.tasks| && s.calls[c].node < |s.linked| && s.tasks[k].node < |s.inbox|
    && ThroughRedis(s, s.calls[c], s.tasks[k].id) && s.calls[c].pc == Published
    && Payload(s.tasks[k].id, s.calls[c].requester) !in s.inbox[s.tasks[k].node]
  }

  /**
   No lost cancel. In every interleaving: once `register` has returned, a cancel of the owner or the
   system that has been published and whose message has been delivered has cancelled the task.
   Owner keys may fail or lapse meanwhile, and so may all commands and messages of other IDs.
   */
  lemma PublishedCancelReachesTask(linked: seq<bool>, steps: seq<Step>, s: State, k: nat, c: nat)
    requires Reaches(linked, steps, s) && IsRegistered(s, k) && IsDelivered(s, c, k)
    requires AllReliable(linked, steps, s.tasks[k].node, s.tasks[k].id, s.tasks[k].owner)
    ensures s.tasks[k].cancelled
  {
    var t := s.tasks[k];
    RunMissesNothing(linked, steps, t.node, t.id, t.owner);
  }

  // ----- Exactly when no cancel is lost -----

  /** In each state of the run the next step is reliable. */
  ghost predicate ReliableRun(linked: seq<bool>, steps: seq<Step>, node: nat, id: string) {
    forall i :: 0 <= i < |steps| ==> Reliable(Run(linked, steps[..i]), steps[i], node, id)
  }

  /** Only these have asked for `id`. */
  ghost predicate AskedBy(steps: seq<Step>, id: string, who: string -> bool) {
    forall requester :: Requested(steps, id, requester) ==> who(requester)
  }

  /** Every delivered cancel of the owner or the system has cancelled the task of `id`, where the run was reliable. */
  ghost predicate LosesNoCancel(linked: seq<bool>, steps: seq<Step>, id: string, owner: string) {
    var s := Run(linked, steps);
    forall k: nat, c: nat ::
      IsRegistered(s, k) && s.tasks[k].id == id && s.tasks[k].owner == owner && IsDelivered(s, c, k) &&
      (s.calls[c].requester == SYSTEM_REQUESTER || (owner != "" && s.calls[c].requester == owner)) &&
      ReliableRun(linked, steps, s.tasks[k].node, id) ==>
        s.tasks[k].cancelled
  }

  lemma {:induction false} AskedOnlyByAllowed(linked: seq<bool>, steps: seq<Step>, node: nat, id: string,
                                              owner: string, who: string -> bool)
    requires ReliableRun(linked, steps, node, id) && AskedBy(steps, id, who)
    requires forall r :: who(r) ==> (r == SYSTEM_REQUESTER || (owner != "" && r == owner)) && Arrives(id, r, owner)
    ensures AllReliable(linked, steps, node, id, owner)
  {
    hide Run, Reliable, Arrives, IsRequesterAllowed, Requests;
    forall i | 0 <= i < |steps| ensures OnlyAllowedAsk(steps[i], id, owner) {
      forall r | Requests(steps[i], id, r)
        ensures (r == SYSTEM_REQUESTER || (owner != "" && r == owner)) && Arrives(id, r, owner)
      {
        assert Requested(steps, id, r);
      }
    }
  }

  /**
   The same with every name written out: where only the system and the owner ask for the ID, under names
   that the broadcast carries, a delivered cancel of either has cancelled the task. A cancel of the system
   does so whoever owns the task, also if nobody does.
   */
  lemma {:induction false} DeliveredCancelCancels(linked: seq<bool>, steps: seq<Step>, s: State, k: nat, c: nat)
    requires Reaches(linked, steps, s) && IsRegistered(s, k) && IsDelivered(s, c, k)
    requires ReliableRun(linked, steps, s.tasks[k].node, s.tasks[k].id)
    requires forall r :: Requested(steps, s.tasks[k].id, r) ==>
               (r == "__system__" || (s.tasks[k].owner != "" && r == s.tasks[k].owner)) && Plain(s.tasks[k].id, r)
    ensures s.tasks[k].cancelled
  {
    var t := s.tasks[k];
    hide Reaches, Run, IsRegistered, IsDelivered, ReliableRun, Requested, Plain, Arrives;
    var who := (r: string) => (r == SYSTEM_REQUESTER || (t.owner != "" && r == t.owner)) && Plain(t.id, r);
    forall r | who(r) ensures Arrives(t.id, r, t.owner) { PlainArrives(t.id, r, t.owner); }
    AskedOnlyByAllowed(linked, steps, t.node, t.id, t.owner, who);
    PublishedCancelReachesTask(linked, steps, s, k, c);
  }

  lemma {:induction false} AllowedLoseNoCancel(linked: seq<bool>, steps: seq<Step>, id: string, owner: string,
                                               who: string -> bool)
    requires AskedBy(steps, id, who)
    requires forall r :: who(r) ==> (r == SYSTEM_REQUESTER || (owner != "" && r == owner)) && Arrives(id, r, owner)
    ensures LosesNoCancel(linked, steps, id, owner)
  {
    hide Run, AllReliable, ReliableRun, Arrives, IsRequesterAllowed, AskedBy, Payload;
    var s := Run(linked, steps);
    forall k: nat, c: nat | IsRegistered(s, k) && s.tasks[k].id == id && s.tasks[k].owner == owner &&
        IsDelivered(s, c, k) &&
      (s.calls[c].requester == SYSTEM_REQUESTER || (owner != "" && s.calls[c].requester == owner)) &&
      ReliableRun(linked, steps, s.tasks[k].node, id)
      ensures s.tasks[k].cancelled
    {
      AskedOnlyByAllowed(linked, steps, s.tasks[k].node, id, owner, who);
      PublishedCancelReachesTask(linked, steps, s, k, c);
    }
  }

  /** One node with Redis and no owner key, on which a run has come to `s`. */
  ghost predicate RunsTo(steps: seq<Step>, s: State) {
    Run([true], steps) == s && s.linked == [true] && s.owners == map[] && WellFormed(s)
  }

  lemma {:induction false} RunOn(steps: seq<Step>, s: State, step: Step, t: State)
    requires RunsTo(steps, s) && Apply(s, step) == t && t.owners == map[]
    ensures RunsTo(steps + [step], t)
  {
    RunSnoc([true], steps, step);
    hide Run, Apply;
  }

  lemma {:induction false} AskTakes(s: State, id: string, r: string)
    requires WellFormed(s) && s.linked == [true] && s.owners == map[]
    ensures Apply(s, Ask(id, r)) == s.(calls := s.calls + [Call(0, id, r, Approved)])
  {
    ApproveTakes(s, 0, id, r, true);
    SystemTakes(s, 0, id);
    hide Apply;
  }

  function Marking(id: string, r: string, c: nat): seq<Step> {
    [Ask(id, r)] + [SetMarker(c, true)]
  }

  /** Call `c`: `r` asks for `id`, and the marker is set. */
  lemma {:induction false} MarkRun(steps: seq<Step>, s: State, id: string, r: string)
    requires RunsTo(steps, s) && !IsBlank(id)
    ensures RunsTo(steps + Marking(id, r, |s.calls|),
                   s.(calls := s.calls + [Call(0, id, r, Marked)], markers := s.markers[id := r]))
  {
    hide Run, Apply, IsBlank, Ask;
    AskTakes(s, id, r);
    var asked, c := s.(calls := s.calls + [Call(0, id, r, Approved)]), |s.calls|;
    RunOn(steps, s, Ask(id, r), asked);
    MarkTakes(asked, c, true);
    RunOn(steps + [Ask(id, r)], asked, SetMarker(c, true), Apply(asked, SetMarker(c, true)));
    assert asked.calls[c := Call(0, id, r, Marked)] == s.calls + [Call(0, id, r, Marked)];
    assert steps + [Ask(id, r)] + [SetMarker(c, true)] == steps + Marking(id, r, c);
  }

  function Sending(id: string, r: string, c: nat): seq<Step> {
    [Publish(c, true)] + [Deliver(0, Payload(id, r))]
  }

  /** The broadcast of call `c` finds no task that it may cancel. */
  predicate FindsNone(s: State, id: string, r: string)
    requires WellFormed(s)
  {
    var (x, u) := SplitPayload(Payload(id, r));
    (0, x) in s.current ==> !IsRequesterAllowed(s.tasks[s.current[(0, x)]].owner, u)
  }

  lemma {:induction false} SendRun(steps: seq<Step>, s: State, id: string, r: string, c: nat)
    requires RunsTo(steps, s) && s.inbox == [multiset{}] && FindsNone(s, id, r)
    requires c < |s.calls| && s.calls[c] == Call(0, id, r, Marked)
    ensures RunsTo(steps + Sending(id, r, c), s.(calls := s.calls[c := Call(0, id, r, Published)]))
  {
    hide Run, Apply, Payload, SplitPayload, IsRequesterAllowed;
    var p := Payload(id, r);
    var published := s.(calls := s.calls[c := Call(0, id, r, Published)], inbox := [multiset{p}]);
    var delivered := published.(inbox := [multiset{}]);
    PublishTakes(s, c, true);
    assert Broadcast(s, p) == [multiset{p}] by { assert s.inbox[0] + multiset{p} == multiset{p}; }
    RunOn(steps, s, Publish(c, true), published);
    DeliverTakes(published, 0, p);
    assert published.inbox[0 := published.inbox[0] - multiset{p}] == [multiset{}];
    RunOn(steps + [Publish(c, true)], published, Deliver(0, p), delivered);
    assert steps + [Publish(c, true)] + [Deliver(0, p)] == steps + Sending(id, r, c);
  }

  function Registration(id: string, owner: string): seq<Step> {
    [RegisterInsert(0, id, owner)] + [SaveOwner(0, false)] + [ReadMarker(0, true)] + [FinishRegister(0)]
  }

  /** The first task is registered; the owner key cannot be saved. */
  lemma {:induction false} RegisterRun(steps: seq<Step>, s: State, id: string, owner: string, marked: bool)
    requires RunsTo(steps, s) && s.tasks == [] && s.current == map[] && !IsBlank(id)
    requires marked == (id in s.markers && IsRequesterAllowed(owner, s.markers[id]))
    ensures RunsTo(steps + Registration(id, owner),
                   s.(tasks := [Task(0, id, owner, marked, Returned)], current := map[(0, id) := 0]))
  {
    hide Run, Apply, IsBlank, IsRequesterAllowed;
    var s1 := s.(tasks := [Task(0, id, owner, false, Inserted)], current := map[(0, id) := 0]);
    var s2 := s1.(tasks := [Task(0, id, owner, false, OwnerSaved)]);
    var s3 := s1.(tasks := [Task(0, id, owner, false, Decided(marked))]);
    var s4 := s1.(tasks := [Task(0, id, owner, marked, Returned)]);
    var one := steps + [RegisterInsert(0, id, owner)];
    var two := one + [SaveOwner(0, false)];
    var three := two + [ReadMarker(0, true)];
    InsertTakes(s, 0, id, owner);
    assert s.tasks + [Task(0, id, owner, false, Inserted)] == s1.tasks && s.current[(0, id) := 0] == s1.current;
    RunOn(steps, s, RegisterInsert(0, id, owner), s1);
    SaveOwnerTakes(s1, 0, false);
    RunOn(one, s1, SaveOwner(0, false), s2);
    ReadMarkerTakes(s2, 0, true);
    RunOn(two, s2, ReadMarker(0, true), s3);
    FinishTakes(s3, 0);
    RunOn(three, s3, FinishRegister(0), s4);
    assert three + [FinishRegister(0)] == steps + Registration(id, owner);
  }

  /** Nothing fails and nothing is forgotten. */
  predicate NothingFails(steps: seq<Step>) {
    forall i :: 0 <= i < |steps| ==>
      match steps[i]
      case ReadMarker(_, ok) => ok
      case SetMarker(_, ok) => ok
      case Publish(_, ok) => ok
      case UnregisterRedis(_) => false
      case LapseMarker(_) => false
      case LoseMessage(_, _) => false
      case _ => true
  }

  lemma {:induction false} NothingFailsIsReliable(linked: seq<bool>, steps: seq<Step>, node: nat, id: string)
    requires NothingFails(steps)
    ensures ReliableRun(linked, steps, node, id)
  {
    hide Run, SplitPayload;
  }

  /** A run at whose end the task is there, call 0 has been delivered, and nothing was cancelled. */
  lemma {:induction false} LostHere(steps: seq<Step>, s: State, id: string, owner: string, r: string)
    requires RunsTo(steps, s) && NothingFails(steps) && !IsBlank(id) && IsRequesterAllowed(owner, r)
    requires s.tasks == [Task(0, id, owner, false, Returned)] && s.current == map[(0, id) := 0]
    requires s.inbox == [multiset{}]
    requires s.calls != [] && s.calls[0] == Call(0, id, r, Published)
    ensures !LosesNoCancel([true], steps, id, owner)
  {
    hide Run, IsBlank, Payload, ReliableRun, NothingFails;
    NothingFailsIsReliable([true], steps, 0, id);
    assert IsRegistered(s, 0) && IsDelivered(s, 0, 0);
  }

  /** A cancel of `a` that comes before the task, and then one of `b`, whose marker takes the place of the first. */
  function Overwritten(id: string, owner: string, a: string, b: string): seq<Step> {
    Marking(id, a, 0) + Sending(id, a, 0) + Marking(id, b, 1) + Registration(id, owner)
  }

  lemma {:induction false} OverwrittenMarkerLosesCancel(id: string, owner: string, a: string, b: string)
    requires !IsBlank(id) && IsRequesterAllowed(owner, a) && !IsRequesterAllowed(owner, b)
    ensures !LosesNoCancel([true], Overwritten(id, owner, a, b), id, owner)
  {
    hide Run, IsBlank, Payload, SplitPayload, IsRequesterAllowed, Marking, Sending, Registration, LosesNoCancel;
    var s0 := Initial([true]);
    EmptyRun();
    MarkRun([], s0, id, a);
    var s1 := s0.(calls := [Call(0, id, a, Marked)], markers := map[id := a]);
    assert s0.calls + [Call(0, id, a, Marked)] == s1.calls && s0.markers[id := a] == s1.markers;
    assert [] + Marking(id, a, 0) == Marking(id, a, 0);
    var one := Marking(id, a, 0);
    SendRun(one, s1, id, a, 0);
    var s2 := s1.(calls := [Call(0, id, a, Published)]);
    var two := one + Sending(id, a, 0);
    MarkRun(two, s2, id, b);
    var s3 := s2.(calls := s2.calls + [Call(0, id, b, Marked)], markers := s2.markers[id := b]);
    var three := two + Marking(id, b, 1);
    RegisterRun(three, s3, id, owner, false);
    OverwrittenIsReliable(id, owner, a, b);
    LostHere(Overwritten(id, owner, a, b),
             s3.(tasks := [Task(0, id, owner, false, Returned)], current := map[(0, id) := 0]), id, owner, a);
  }

  /** A cancel of `r` whose marker lapses before the task is there. */
  function Forgotten(id: string, owner: string, r: string): seq<Step> {
    Marking(id, r, 0) + Sending(id, r, 0) + [LapseMarker(id)] + Registration(id, owner)
  }

  /** The marker alone keeps a cancel that comes first: once it has lapsed, the task runs on. */
  lemma {:induction false} LapsedMarkerLosesCancel(id: string, owner: string, r: string)
    requires !IsBlank(id) && (r == SYSTEM_REQUESTER || (owner != "" && r == owner))
    ensures var s := Run([true], Forgotten(id, owner, r));
            IsRegistered(s, 0) && IsDelivered(s, 0, 0) && s.calls[0].requester == r && !s.tasks[0].cancelled
  {
    hide Run, IsBlank, Payload, SplitPayload, IsRequesterAllowed, Marking, Sending, Registration;
    var s0 := Initial([true]);
    EmptyRun();
    MarkRun([], s0, id, r);
    var s1 := s0.(calls := [Call(0, id, r, Marked)], markers := map[id := r]);
    assert s0.calls + [Call(0, id, r, Marked)] == s1.calls && s0.markers[id := r] == s1.markers;
    assert [] + Marking(id, r, 0) == Marking(id, r, 0);
    var one := Marking(id, r, 0);
    SendRun(one, s1, id, r, 0);
    var s2 := s1.(calls := [Call(0, id, r, Published)]);
    var two := one + Sending(id, r, 0);
    var s3 := s2.(markers := map[]);
    assert s2.markers - {id} == map[];
    RunOn(two, s2, LapseMarker(id), s3);
    RegisterRun(two + [LapseMarker(id)], s3, id, owner, false);
  }

  /** While the owner key is not there, a stop of anybody is accepted. */
  lemma LapsedOwnerAdmitsAnyone(linked: seq<bool>, steps: seq<Step>, node: nat, id: string, r: string, ok: bool)
    requires node < |linked|
    ensures var s := Run(linked, steps + [LapseOwner(id)] + [CancelByUser(node, id, r, ok)]);
            s.calls == Run(linked, steps).calls + [Call(node, id, r, Approved)]
  {
    assert (steps + [LapseOwner(id)])[..|steps|] == steps;
    assert (steps + [LapseOwner(id)] + [CancelByUser(node, id, r, ok)])[..|steps| + 1] == steps + [LapseOwner(id)];
  }

  lemma EmptyRun()
    ensures RunsTo([], Initial([true])) && Initial([true]).inbox == [multiset{}]
  {
  }

  lemma {:induction false} OverwrittenIsReliable(id: string, owner: string, a: string, b: string)
    ensures NothingFails(Overwritten(id, owner, a, b))
    ensures forall r :: Requested(Overwritten(id, owner, a, b), id, r) ==> r == a || r == b
  {
    hide Payload;
  }

  /** The task is there; the broadcast of `r` is taken for one that may not cancel it. */
  function Misdirected(id: string, owner: string, r: string): seq<Step> {
    Registration(id, owner) + Marking(id, r, 0) + Sending(id, r, 0)
  }

  lemma {:induction false} MisdirectedBroadcastLosesCancel(id: string, owner: string, r: string)
    requires !IsBlank(id) && IsRequesterAllowed(owner, r) && !Arrives(id, r, owner)
    ensures !LosesNoCancel([true], Misdirected(id, owner, r), id, owner)
  {
    hide Run, IsBlank, Payload, SplitPayload, Marking, Sending, Registration, LosesNoCancel;
    var s0 := Initial([true]);
    EmptyRun();
    RegisterRun([], s0, id, owner, false);
    var s1 := s0.(tasks := [Task(0, id, owner, false, Returned)], current := map[(0, id) := 0]);
    assert [] + Registration(id, owner) == Registration(id, owner);
    var one := Registration(id, owner);
    MarkRun(one, s1, id, r);
    var s2 := s1.(calls := s1.calls + [Call(0, id, r, Marked)], markers := s1.markers[id := r]);
    var two := one + Marking(id, r, 0);
    SendRun(two, s2, id, r, 0);
    MisdirectedIsReliable(id, owner, r);
    LostHere(Misdirected(id, owner, r), s2.(calls := s2.calls[0 := Call(0, id, r, Published)]), id, owner, r);
  }

  lemma {:induction false} MisdirectedIsReliable(id: string, owner: string, r: string)
    ensures NothingFails(Misdirected(id, owner, r))
    ensures forall x :: Requested(Misdirected(id, owner, r), id, x) ==> x == r
  {
    hide Payload;
  }

  /**
   Who may ask without a cancel of the owner or the system being lost, exactly: nobody but them, and only
   under names that the broadcast carries. A request of anybody else, which is accepted while the owner
   key is not there, sets its marker in the place of theirs.
   */
  lemma {:induction false} NoCancelIsLostIff(id: string, owner: string, who: string -> bool)
    requires !IsBlank(id) && exists a :: who(a) && (a == SYSTEM_REQUESTER || (owner != "" && a == owner))
    ensures (forall linked, steps :: AskedBy(steps, id, who) ==> LosesNoCancel(linked, steps, id, owner)) <==>
              forall r :: who(r) ==> (r == SYSTEM_REQUESTER || (owner != "" && r == owner)) && Arrives(id, r, owner)
  {
    hide LosesNoCancel, Requested, Arrives, IsBlank, Overwritten, Misdirected;
    if forall r :: who(r) ==> (r == SYSTEM_REQUESTER || (owner != "" && r == owner)) && Arrives(id, r, owner) {
      forall linked, steps | AskedBy(steps, id, who) ensures LosesNoCancel(linked, steps, id, owner) {
        AllowedLoseNoCancel(linked, steps, id, owner, who);
      }
    } else {
      var a :| who(a) && (a == SYSTEM_REQUESTER || (owner != "" && a == owner));
      var r :| who(r) && !((r == SYSTEM_REQUESTER || (owner != "" && r == owner)) && Arrives(id, r, owner));
      if IsRequesterAllowed(owner, r) {
        MisdirectedBroadcastLosesCancel(id, owner, r);
        MisdirectedIsReliable(id, owner, r);
        assert AskedBy(Misdirected(id, owner, r), id, who);
      } else {
        OverwrittenMarkerLosesCancel(id, owner, a, r);
        OverwrittenIsReliable(id, owner, a, r);
        assert AskedBy(Overwritten(id, owner, a, r), id, who);
      }
    }
  }

  /** Names such as the service makes them: then only who asks matters. */
  lemma {:induction false} PlainNamesLoseNoCancelIff(id: string, owner: string, who: string -> bool)
    requires !IsBlank(id) && forall r :: who(r) ==> Plain(id, r)
    requires exists a :: who(a) && (a == SYSTEM_REQUESTER || (owner != "" && a == owner))
    ensures (forall linked, steps :: AskedBy(steps, id, who) ==> LosesNoCancel(linked, steps, id, owner)) <==>
              forall r :: who(r) ==> r == SYSTEM_REQUESTER || (owner != "" && r == owner)
  {
    hide LosesNoCancel, AskedBy, Arrives, IsRequesterAllowed, IsBlank, Plain;
    NoCancelIsLostIff(id, owner, who);
    forall r | who(r) && (r == SYSTEM_REQUESTER || (owner != "" && r == owner)) ensures Arrives(id, r, owner) {
      PlainArrives(id, r, owner);
    }
  }

  // ----- Refusals -----

  /** Every registration of `id` in the run has this owner. */
  predicate RegistersAs(step: Step, id: string, owner: string) {
    step.RegisterInsert? && step.id == id ==> step.owner == owner
  }

  /** The owner's own stop is never refused, whatever stands in Redis. */
  lemma OwnerIsNeverRefused(linked: seq<bool>, steps: seq<Step>, id: string, owner: string, c: nat)
    requires forall i :: 0 <= i < |steps| ==> RegistersAs(steps[i], id, owner)
    requires c < |Run(linked, steps).calls| && Run(linked, steps).calls[c].id == id
    requires Run(linked, steps).calls[c].requester == owner
    ensures Run(linked, steps).calls[c].pc != Refused
  {
    RunOwnerKey(linked, steps, id, owner);
  }

  lemma {:induction false} RunOwnerKey(linked: seq<bool>, steps: seq<Step>, id: string, owner: string)
    requires forall i :: 0 <= i < |steps| ==> RegistersAs(steps[i], id, owner)
    ensures OwnerKeyInv(Run(linked, steps), id, owner)
  {
    if steps != [] {
      RunOwnerKey(linked, steps[..|steps| - 1], id, owner);
      OwnerKeyStep(Run(linked, steps[..|steps| - 1]), steps[|steps| - 1], id, owner);
    }
  }

  ghost predicate OwnerKeyInv(s: State, id: string, owner: string) {
    && (forall k :: 0 <= k < |s.tasks| && s.tasks[k].id == id ==> s.tasks[k].owner == owner)
    && (id in s.owners ==> s.owners[id] == owner)
    && (forall c :: 0 <= c < |s.calls| && s.calls[c].id == id && s.calls[c].requester == owner ==>
         s.calls[c].pc != Refused)
  }

  lemma {:induction false} OwnerKeyStep(s: State, step: Step, id: string, owner: string)
    requires WellFormed(s) && OwnerKeyInv(s, id, owner) && RegistersAs(step, id, owner)
    ensures OwnerKeyInv(Apply(s, step), id, owner)
  {
    hide SaveOwnerStep, RegisterInsertStep, ReadMarkerStep, FinishRegisterStep, CancelByUserStep, CancelBySystemStep,
      CancelHereStep, SetMarkerStep, PublishStep, DeliverStep;
    match step
    case RegisterInsert(n, i, o) => OwnerKeyInsert(s, n, i, o, id, owner);
    case SaveOwner(k, ok) => OwnerKeyRegister(s, k, ok, id, owner);
    case ReadMarker(k, ok) => OwnerKeyRegister(s, k, ok, id, owner);
    case FinishRegister(k) => OwnerKeyFinish(s, k, id, owner);
    case CancelByUser(n, i, r, ok) => OwnerKeyRequest(s, n, i, r, ok, id, owner);
    case CancelBySystem(n, i) => OwnerKeyRequest(s, n, i, SYSTEM_REQUESTER, true, id, owner);
    case CancelHere(c) => OwnerKeyCancelHere(s, c, id, owner);
    case SetMarker(c, ok) => OwnerKeyMark(s, c, ok, id, owner);
    case Publish(c, ok) => OwnerKeyPublish(s, c, ok, id, owner);
    case Deliver(n, p) => OwnerKeyDeliver(s, n, p, id, owner);
    case _ =>
  }

  lemma OwnerKeyInsert(s: State, n: nat, i: string, o: string, id: string, owner: string)
    requires WellFormed(s) && OwnerKeyInv(s, id, owner) && (i == id ==> o == owner)
    ensures OwnerKeyInv(RegisterInsertStep(s, n, i, o), id, owner)
  {
  }

  lemma OwnerKeyRegister(s: State, k: nat, ok: bool, id: string, owner: string)
    requires WellFormed(s) && OwnerKeyInv(s, id, owner)
    ensures OwnerKeyInv(SaveOwnerStep(s, k, ok), id, owner)
    ensures OwnerKeyInv(ReadMarkerStep(s, k, ok), id, owner)
  {
  }

  lemma OwnerKeyFinish(s: State, k: nat, id: string, owner: string)
    requires WellFormed(s) && OwnerKeyInv(s, id, owner)
    ensures OwnerKeyInv(FinishRegisterStep(s, k), id, owner)
  {
  }

  lemma OwnerKeyRequest(s: State, n: nat, i: string, r: string, ok: bool, id: string, owner: string)
    requires WellFormed(s) && OwnerKeyInv(s, id, owner)
    ensures OwnerKeyInv(CancelByUserStep(s, n, i, r, ok), id, owner)
    ensures OwnerKeyInv(CancelBySystemStep(s, n, i), id, owner)
  {
  }

  lemma OwnerKeyMark(s: State, c: nat, ok: bool, id: string, owner: string)
    requires WellFormed(s) && OwnerKeyInv(s, id, owner)
    ensures OwnerKeyInv(SetMarkerStep(s, c, ok), id, owner)
  {
  }

  lemma OwnerKeyPublish(s: State, c: nat, ok: bool, id: string, owner: string)
    requires WellFormed(s) && OwnerKeyInv(s, id, owner)
    ensures OwnerKeyInv(PublishStep(s, c, ok), id, owner)
  {
  }

  lemma OwnerKeyCancelHere(s: State, c: nat, id: string, owner: string)
    requires WellFormed(s) && OwnerKeyInv(s, id, owner)
    ensures OwnerKeyInv(CancelHereStep(s, c), id, owner)
  {
  }

  lemma OwnerKeyDeliver(s: State, n: nat, p: string, id: string, owner: string)
    requires WellFormed(s) && OwnerKeyInv(s, id, owner)
    ensures OwnerKeyInv(DeliverStep(s, n, p), id, owner)
  {
  }
}
