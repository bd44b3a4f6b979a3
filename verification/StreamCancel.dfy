/**
 Cancelling a stream across nodes (`internal/biz/rag/stream_task_manager.go`). Each Redis command and each
 section under a mutex is a `Step`, and a step that is not enabled does nothing; so a lemma about all step
 sequences is one about all interleavings. Redis failures, key expiry and lost messages are steps too.
 */
module StreamCancel {
  import opened Text

  const SYSTEM_REQUESTER := "__system__"
  const SEPARATOR := '|'

  // ----- The payload taskID|requester -----

  function Payload(id: string, requester: string): string {
    if requester != "" then id + [SEPARATOR] + requester else id
  }

  function SplitPayload(payload: string): (string, string) {
    var p := Trim(payload);
    var i := IndexOfChar(p, SEPARATOR);
    if i >= 0 then (p[..i], p[i + 1..]) else (p, "")
  }

  /** IDs and requesters that a payload can carry: no separator in the ID, no blanks at the ends. */
  predicate Plain(id: string, requester: string) {
    '|' !in id && TrimLeft(id) == id && TrimRight(requester) == requester &&
      (requester == "" ==> TrimRight(id) == id)
  }

  lemma {:induction false} IndexOfFirst(a: string, b: string)
    requires SEPARATOR !in a
    ensures IndexOfChar(a + [SEPARATOR] + b, SEPARATOR) == |a|
  {
    if a != "" {
      assert (a + [SEPARATOR] + b)[1..] == a[1..] + [SEPARATOR] + b;
      IndexOfFirst(a[1..], b);
    }
  }

  lemma BareRoundTrip(id: string)
    requires SEPARATOR !in id
    ensures SplitPayload(id) == (Trim(id), "")
  {
    TrimLeftShape(id);
    TrimRightShape(TrimLeft(id));
    assert SEPARATOR !in TrimLeft(id);
  }

  lemma {:induction false} JoinedRoundTrip(id: string, requester: string)
    requires SEPARATOR !in id
    ensures SplitPayload(id + [SEPARATOR] + requester) == (TrimLeft(id), TrimRight(requester))
  {
    hide TrimLeft, TrimRight, IndexOfChar;
    var a, b := TrimLeft(id), TrimRight(requester);
    TrimLeftConcat(id, SEPARATOR, requester);
    TrimRightConcat(a, SEPARATOR, requester);
    TrimLeftShape(id);
    assert SEPARATOR !in a;
    IndexOfFirst(a, b);
    var p := a + [SEPARATOR] + b;
    assert p[..|a|] == a && p[|a| + 1..] == b;
  }

  lemma SplitHasNoSeparator(payload: string)
    ensures SEPARATOR !in SplitPayload(payload).0
  {
  }

  /** The broadcast reaches its task with its requester exactly when both are plain. */
  lemma PayloadRoundTrip(id: string, requester: string)
    ensures SplitPayload(Payload(id, requester)) == (id, requester) <==> Plain(id, requester)
  {
    SplitHasNoSeparator(Payload(id, requester));
    if SEPARATOR !in id {
      if requester == "" {
        BareRoundTrip(id);
        if Trim(id) == id { TrimIdentity(id); }
      } else {
        JoinedRoundTrip(id, requester);
      }
    }
  }

  /** The broadcast is taken for a request that was not made: another ID, or another requester, and both non-empty. */
  predicate Misread(id: string, requester: string) {
    var (a, u) := SplitPayload(Payload(id, requester));
    (a, u) != (id, requester) && a != "" && u != ""
  }

  lemma BlankIsNotMisread(id: string, requester: string)
    requires IsBlank(id)
    ensures SplitPayload(Payload(id, requester)).0 == ""
  {
    TrimLeftShape(id);
    TrimRightShape(TrimLeft(id));
    TrimLeftStart(id);
    if requester != "" {
      BlankIsSpaces(TrimLeft(id));
      assert TrimLeft(id) == "";
      TrimLeftConcat(id, SEPARATOR, requester);
      TrimRightConcat("", SEPARATOR, requester);
      assert "" + [SEPARATOR] + requester == [SEPARATOR] + requester;
    }
  }

  lemma {:induction false} BlankIsSpaces(s: string)
    requires TrimRight(s) == ""
    ensures forall i :: 0 <= i < |s| ==> IsSpace(s[i])
  {
    if s != "" { BlankIsSpaces(s[..|s| - 1]); }
  }

  /** The system's name survives as it is, so a request of the system is misread only as one for another ID. */
  lemma SystemNameSurvives(id: string)
    requires Misread(id, SYSTEM_REQUESTER)
    ensures SplitPayload(Payload(id, SYSTEM_REQUESTER)).0 != id
  {
    SplitHasNoSeparator(Payload(id, SYSTEM_REQUESTER));
    if SEPARATOR !in id {
      JoinedRoundTrip(id, SYSTEM_REQUESTER);
      assert SYSTEM_REQUESTER[|SYSTEM_REQUESTER| - 1] == '_';
      assert TrimRight(SYSTEM_REQUESTER) == SYSTEM_REQUESTER;
    }
  }

  lemma TrimIdentity(s: string)
    requires Trim(s) == s
    ensures TrimLeft(s) == s && TrimRight(s) == s
  {
    TrimLeftShape(s);
    TrimRightShape(TrimLeft(s));
    assert |TrimLeft(s)| == |s|;
  }

  // ----- State and steps -----

  /** `system` and the exact, non-empty owner may cancel; an empty requester may not. */
  predicate IsRequesterAllowed(owner: string, requester: string) {
    requester == SYSTEM_REQUESTER || (owner != "" && owner == requester)
  }

  /** How far `register` has come for a task. */
  datatype RegisterPc = Inserted | OwnerSaved | Decided(cancel: bool) | Returned

  /** A task object. The node's map points to it by its index. */
  datatype Task = Task(node: nat, id: string, owner: string, cancelled: bool, pc: RegisterPc)

  /** How far a call of `cancelByUser` or `cancel` has come. */
  datatype CallPc = Approved | Marked | Published | Refused

  datatype Call = Call(node: nat, id: string, requester: string, pc: CallPc)

  datatype State = State(
    linked: seq<bool>,                  // which nodes have a Redis client
    tasks: seq<Task>,                   // all task objects ever registered
    current: map<(nat, string), nat>,   // per node, the map from task ID to task object
    owners: map<string, string>,        // Redis owner keys
    markers: map<string, string>,       // Redis cancel markers
    calls: seq<Call>,
    inbox: seq<multiset<string>>)       // broadcasts on their way to each node

  datatype Step =
    | RegisterInsert(node: nat, id: string, owner: string)
    | SaveOwner(task: nat, ok: bool)
    | ReadMarker(task: nat, ok: bool)
    | FinishRegister(task: nat)
    | CancelByUser(node: nat, id: string, requester: string, ok: bool)
    | CancelBySystem(node: nat, id: string)
    | CancelHere(call: nat)
    | SetMarker(call: nat, ok: bool)
    | Publish(call: nat, ok: bool)
    | Deliver(node: nat, payload: string)
    | UnregisterLocal(node: nat, id: string)
    | UnregisterRedis(id: string)
    | LapseOwner(id: string)
    | LapseMarker(id: string)
    | LoseMessage(node: nat, payload: string)

  predicate WellFormed(s: State) {
    && |s.inbox| == |s.linked|
    && (forall k :: 0 <= k < |s.tasks| ==> s.tasks[k].node < |s.linked|)
    && (forall k :: 0 <= k < |s.calls| ==> s.calls[k].node < |s.linked|)
    && (forall key :: key in s.current ==>
         s.current[key] < |s.tasks| && s.tasks[s.current[key]].node == key.0 && s.tasks[s.current[key]].id == key.1)
  }

  function Initial(linked: seq<bool>): State {
    State(linked, [], map[], map[], map[], [], seq(|linked|, _ => multiset{}))
  }

  function SetTask(s: State, k: nat, t: Task): (r: State)
    requires WellFormed(s) && k < |s.tasks| && t.node == s.tasks[k].node && t.id == s.tasks[k].id
    ensures WellFormed(r) && r.linked == s.linked
  {
    s.(tasks := s.tasks[k := t])
  }

  function SetCallPc(s: State, c: nat, pc: CallPc): (r: State)
    requires WellFormed(s) && c < |s.calls|
    ensures WellFormed(r) && r.linked == s.linked
  {
    s.(calls := s.calls[c := s.calls[c].(pc := pc)])
  }

  /** `register`, first section: the task object enters the node's map. */
  function RegisterInsertStep(s: State, node: nat, id: string, owner: string): (r: State)
    requires WellFormed(s)
    ensures WellFormed(r) && r.linked == s.linked
  {
    if node < |s.linked| then
      s.(tasks := s.tasks + [Task(node, id, owner, false, Inserted)], current := s.current[(node, id) := |s.tasks|])
    else s
  }

  /** `register`, then: the owner goes to Redis. */
  function SaveOwnerStep(s: State, k: nat, ok: bool): (r: State)
    requires WellFormed(s)
    ensures WellFormed(r) && r.linked == s.linked
  {
    if k < |s.tasks| && s.tasks[k].pc == Inserted then
      var t := s.tasks[k];
      var saves := s.linked[t.node] && !IsBlank(t.owner) && ok;
      SetTask(s, k, t.(pc := OwnerSaved)).(owners := if saves then s.owners[t.id := t.owner] else s.owners)
    else s
  }

  /** `isCancellationMarked`, evaluated in one state. */
  predicate MarkerDecides(s: State, t: Task, ok: bool)
    requires t.node < |s.linked|
  {
    t.cancelled ||
    (s.linked[t.node] && !IsBlank(t.id) && ok && t.id in s.markers && IsRequesterAllowed(t.owner, s.markers[t.id]))
  }

  /** `register`, then: the marker is read. */
  function ReadMarkerStep(s: State, k: nat, ok: bool): (r: State)
    requires WellFormed(s)
    ensures WellFormed(r) && r.linked == s.linked
  {
    if k < |s.tasks| && s.tasks[k].pc == OwnerSaved then
      SetTask(s, k, s.tasks[k].(pc := Decided(MarkerDecides(s, s.tasks[k], ok))))
    else s
  }

  /** `register`, last: `cancelTask` if the marker says so, and return. */
  function FinishRegisterStep(s: State, k: nat): (r: State)
    requires WellFormed(s)
    ensures WellFormed(r) && r.linked == s.linked
  {
    if k < |s.tasks| && s.tasks[k].pc.Decided? then
      var t := s.tasks[k];
      SetTask(s, k, t.(cancelled := t.cancelled || t.pc.cancel, pc := Returned))
    else s
  }

  /** `cancelByUser`, first section: compare with the owner key, when it can be read. */
  function CancelByUserStep(s: State, node: nat, id: string, requester: string, ok: bool): (r: State)
    requires WellFormed(s)
    ensures WellFormed(r) && r.linked == s.linked
  {
    if node < |s.linked| then
      var owner := if s.linked[node] && ok && id in s.owners then s.owners[id] else "";
      var pc := if owner != "" && owner != requester then Refused else Approved;
      s.(calls := s.calls + [Call(node, id, requester, pc)])
    else s
  }

  function CancelBySystemStep(s: State, node: nat, id: string): (r: State)
    requires WellFormed(s)
    ensures WellFormed(r) && r.linked == s.linked
  {
    if node < |s.linked| then s.(calls := s.calls + [Call(node, id, SYSTEM_REQUESTER, Approved)]) else s
  }

  /** `publishCancel` goes to Redis only with a client and a non-blank ID. */
  predicate ByRedis(s: State, c: Call)
    requires c.node < |s.linked|
  {
    s.linked[c.node] && !IsBlank(c.id)
  }

  /** `cancelLocal`: the node's current task of that ID is cancelled if the requester may. */
  function CancelLocal(s: State, node: nat, id: string, requester: string): (r: State)
    requires WellFormed(s)
    ensures WellFormed(r) && r.linked == s.linked
  {
    if (node, id) in s.current && IsRequesterAllowed(s.tasks[s.current[(node, id)]].owner, requester) then
      var k := s.current[(node, id)];
      SetTask(s, k, s.tasks[k].(cancelled := true))
    else s
  }

  /** `publishCancel` without Redis. */
  function CancelHereStep(s: State, c: nat): (r: State)
    requires WellFormed(s)
    ensures WellFormed(r) && r.linked == s.linked
  {
    if c < |s.calls| && s.calls[c].pc == Approved && !ByRedis(s, s.calls[c]) then
      SetCallPc(CancelLocal(s, s.calls[c].node, s.calls[c].id, s.calls[c].requester), c, Published)
    else s
  }

  /** `publishCancel`, first the marker ... */
  function SetMarkerStep(s: State, c: nat, ok: bool): (r: State)
    requires WellFormed(s)
    ensures WellFormed(r) && r.linked == s.linked
  {
    if c < |s.calls| && s.calls[c].pc == Approved && ByRedis(s, s.calls[c]) then
      SetCallPc(s, c, Marked).(markers := if ok then s.markers[s.calls[c].id := s.calls[c].requester] else s.markers)
    else s
  }

  /** Every node with a client is subscribed to the topic. */
  function Broadcast(s: State, p: string): seq<multiset<string>>
    requires |s.inbox| == |s.linked|
  {
    seq(|s.inbox|, k requires 0 <= k < |s.inbox| => if s.linked[k] then s.inbox[k] + multiset{p} else s.inbox[k])
  }

  /** ... then the broadcast. */
  function PublishStep(s: State, c: nat, ok: bool): (r: State)
    requires WellFormed(s)
    ensures WellFormed(r) && r.linked == s.linked
  {
    if c < |s.calls| && s.calls[c].pc == Marked then
      SetCallPc(s, c, Published).(
        inbox := if ok then Broadcast(s, Payload(s.calls[c].id, s.calls[c].requester)) else s.inbox)
    else s
  }

  function TakeMessage(s: State, node: nat, payload: string): (r: State)
    requires WellFormed(s)
    ensures WellFormed(r) && r.linked == s.linked
  {
    if node < |s.inbox| then s.(inbox := s.inbox[node := s.inbox[node] - multiset{payload}]) else s
  }

  /** `listenCancellationTopic` takes a message and acts on it. */
  function DeliverStep(s: State, node: nat, payload: string): (r: State)
    requires WellFormed(s)
    ensures WellFormed(r) && r.linked == s.linked
  {
    if node < |s.inbox| && payload in s.inbox[node] then
      var (id, requester) := SplitPayload(payload);
      if id != "" then CancelLocal(TakeMessage(s, node, payload), node, id, requester)
      else TakeMessage(s, node, payload)
    else s
  }

  function Apply(s: State, step: Step): (r: State)
    requires WellFormed(s)
    ensures WellFormed(r) && r.linked == s.linked
  {
    match step
    case RegisterInsert(node, id, owner) => RegisterInsertStep(s, node, id, owner)
    case SaveOwner(k, ok) => SaveOwnerStep(s, k, ok)
    case ReadMarker(k, ok) => ReadMarkerStep(s, k, ok)
    case FinishRegister(k) => FinishRegisterStep(s, k)
    case CancelByUser(node, id, requester, ok) => CancelByUserStep(s, node, id, requester, ok)
    case CancelBySystem(node, id) => CancelBySystemStep(s, node, id)
    case CancelHere(c) => CancelHereStep(s, c)
    case SetMarker(c, ok) => SetMarkerStep(s, c, ok)
    case Publish(c, ok) => PublishStep(s, c, ok)
    case Deliver(node, payload) => DeliverStep(s, node, payload)
    case UnregisterLocal(node, id) => s.(current := s.current - {(node, id)})
    case UnregisterRedis(id) => s.(owners := s.owners - {id}, markers := s.markers - {id})
    case LapseOwner(id) => s.(owners := s.owners - {id})
    case LapseMarker(id) => s.(markers := s.markers - {id})
    case LoseMessage(node, payload) => TakeMessage(s, node, payload)
  }

  function Run(linked: seq<bool>, steps: seq<Step>): (s: State)
    ensures WellFormed(s) && s.linked == linked
  {
    if steps == [] then Initial(linked) else Apply(Run(linked, steps[..|steps| - 1]), steps[|steps| - 1])
  }

  /** `s` is the state after the run. */
  ghost predicate Reaches(linked: seq<bool>, steps: seq<Step>, s: State) {
    s == Run(linked, steps)
  }

  // ----- What each step does when it is its turn -----

  lemma InsertTakes(s: State, node: nat, id: string, owner: string)
    requires WellFormed(s) && node < |s.linked|
    ensures Apply(s, RegisterInsert(node, id, owner)) ==
            s.(tasks := s.tasks + [Task(node, id, owner, false, Inserted)],
               current := s.current[(node, id) := |s.tasks|])
  {
  }

  lemma {:induction false} SaveOwnerTakes(s: State, k: nat, ok: bool)
    requires WellFormed(s) && k < |s.tasks| && s.tasks[k].pc == Inserted
    ensures var t := s.tasks[k];
            Apply(s, SaveOwner(k, ok)) ==
            s.(tasks := s.tasks[k := t.(pc := OwnerSaved)],
               owners := if s.linked[t.node] && !IsBlank(t.owner) && ok then s.owners[t.id := t.owner] else s.owners)
  {
    hide IsBlank;
  }

  lemma {:induction false} ReadMarkerTakes(s: State, k: nat, ok: bool)
    requires WellFormed(s) && k < |s.tasks| && s.tasks[k].pc == OwnerSaved
    ensures Apply(s, ReadMarker(k, ok)) ==
            s.(tasks := s.tasks[k := s.tasks[k].(pc := Decided(MarkerDecides(s, s.tasks[k], ok)))])
  {
    hide MarkerDecides;
  }

  lemma FinishTakes(s: State, k: nat)
    requires WellFormed(s) && k < |s.tasks| && s.tasks[k].pc.Decided?
    ensures var t := s.tasks[k];
            Apply(s, FinishRegister(k)) ==
              s.(tasks := s.tasks[k := t.(cancelled := t.cancelled || t.pc.cancel, pc := Returned)])
  {
  }

  lemma ApproveTakes(s: State, node: nat, id: string, requester: string, ok: bool)
    requires WellFormed(s) && node < |s.linked|
    ensures var refused := s.linked[node] && ok && id in s.owners && s.owners[id] != "" && s.owners[id] != requester;
            Apply(s, CancelByUser(node, id, requester, ok)) ==
            s.(calls := s.calls + [Call(node, id, requester, if refused then Refused else Approved)])
  {
  }

  lemma SystemTakes(s: State, node: nat, id: string)
    requires WellFormed(s) && node < |s.linked|
    ensures Apply(s, CancelBySystem(node, id)) == s.(calls := s.calls + [Call(node, id, SYSTEM_REQUESTER, Approved)])
  {
  }

  lemma {:induction false} CancelHereTakes(s: State, c: nat)
    requires WellFormed(s) && c < |s.calls| && s.calls[c].pc == Approved && !ByRedis(s, s.calls[c])
    ensures var call := s.calls[c];
            Apply(s, CancelHere(c)) ==
            CancelLocal(s, call.node, call.id, call.requester).(calls := s.calls[c := call.(pc := Published)])
  {
    hide ByRedis;
  }

  lemma {:induction false} MarkTakes(s: State, c: nat, ok: bool)
    requires WellFormed(s) && c < |s.calls| && s.calls[c].pc == Approved && ByRedis(s, s.calls[c])
    ensures var call := s.calls[c];
            Apply(s, SetMarker(c, ok)) ==
            s.(calls := s.calls[c := call.(pc := Marked)],
               markers := if ok then s.markers[call.id := call.requester] else s.markers)
  {
    hide ByRedis;
  }

  lemma {:induction false} PublishTakes(s: State, c: nat, ok: bool)
    requires WellFormed(s) && c < |s.calls| && s.calls[c].pc == Marked
    ensures var call := s.calls[c];
            Apply(s, Publish(c, ok)) ==
            s.(calls := s.calls[c := call.(pc := Published)],
               inbox := if ok then Broadcast(s, Payload(call.id, call.requester)) else s.inbox)
  {
    hide Payload, Broadcast;
  }

  lemma {:induction false} DeliverTakes(s: State, node: nat, payload: string)
    requires WellFormed(s) && node < |s.inbox| && payload in s.inbox[node]
    ensures var (id, requester) := SplitPayload(payload);
            var taken := s.(inbox := s.inbox[node := s.inbox[node] - multiset{payload}]);
            WellFormed(taken) &&
            Apply(s, Deliver(node, payload)) == if id != "" then CancelLocal(taken, node, id, requester) else taken
  {
    hide SplitPayload, CancelLocal;
  }

  lemma UnregisterTakes(s: State, node: nat, id: string)
    requires WellFormed(s)
    ensures Apply(s, UnregisterLocal(node, id)) == s.(current := s.current - {(node, id)})
    ensures Apply(s, UnregisterRedis(id)) == s.(owners := s.owners - {id}, markers := s.markers - {id})
  {
  }

  // ----- Authority -----

  /** A step that asks for task `id` to be cancelled, on behalf of `requester`. */
  predicate Requests(step: Step, id: string, requester: string) {
    || (step.CancelByUser? && step.id == id && step.requester == requester)
    || (step.CancelBySystem? && step.id == id && requester == SYSTEM_REQUESTER)
  }

  ghost predicate Requested(steps: seq<Step>, id: string, requester: string) {
    exists i :: 0 <= i < |steps| && Requests(steps[i], id, requester)
  }

  /** No request of the run is misread. */
  ghost predicate NoneMisread(steps: seq<Step>) {
    forall id, requester :: Requested(steps, id, requester) ==> !Misread(id, requester)
  }

  /** Someone who may cancel a task of this owner has asked for this ID. */
  ghost predicate Authorized(steps: seq<Step>, id: string, owner: string) {
    exists requester :: Requested(steps, id, requester) && IsRequesterAllowed(owner, requester)
  }

  /** Markers, messages, calls and decisions all stem from requests. */
  ghost predicate StemsFromRequests(steps: seq<Step>, s: State) {
    && (forall id :: id in s.markers ==> Requested(steps, id, s.markers[id]))
    && (forall k, p :: 0 <= k < |s.inbox| && p in s.inbox[k] ==> PayloadRequested(steps, p))
    && (forall c :: 0 <= c < |s.calls| ==> Requested(steps, s.calls[c].id, s.calls[c].requester))
    && (forall k :: 0 <= k < |s.tasks| && WillBeCancelled(s.tasks[k]) ==>
         Authorized(steps, s.tasks[k].id, s.tasks[k].owner))
  }

  predicate WillBeCancelled(t: Task) {
    t.cancelled || (t.pc.Decided? && t.pc.cancel)
  }

  /** What the listener takes `p` for has been requested, unless it drops it or nobody may cancel by it. */
  ghost predicate PayloadRequested(steps: seq<Step>, p: string) {
    var (id, requester) := SplitPayload(p);
    id == "" || requester == "" || Requested(steps, id, requester)
  }

  lemma RequestedMore(steps: seq<Step>, step: Step)
    ensures forall id, r :: Requested(steps, id, r) ==> Requested(steps + [step], id, r)
    ensures forall id, owner :: Authorized(steps, id, owner) ==> Authorized(steps + [step], id, owner)
    ensures forall p :: PayloadRequested(steps, p) ==> PayloadRequested(steps + [step], p)
    ensures forall id, r :: Requests(step, id, r) ==> Requested(steps + [step], id, r)
  {
    forall id, r | Requested(steps, id, r) ensures Requested(steps + [step], id, r) {
      var i :| 0 <= i < |steps| && Requests(steps[i], id, r);
      assert (steps + [step])[i] == steps[i];
    }
    forall id, r | Requests(step, id, r) ensures Requested(steps + [step], id, r) {
      assert (steps + [step])[|steps|] == step;
    }
    forall id, owner | Authorized(steps, id, owner) ensures Authorized(steps + [step], id, owner) {
      var r :| Requested(steps, id, r) && IsRequesterAllowed(owner, r);
      assert Requested(steps + [step], id, r);
    }
    forall p | PayloadRequested(steps, p) ensures PayloadRequested(steps + [step], p) {
      var (id, r) := SplitPayload(p);
      assert Requested(steps, id, r) ==> Requested(steps + [step], id, r);
    }
  }

  lemma CancelLocalKeepsOrigin(steps: seq<Step>, s: State, node: nat, id: string, requester: string)
    requires WellFormed(s) && StemsFromRequests(steps, s) && (requester == "" || Requested(steps, id, requester))
    ensures StemsFromRequests(steps, CancelLocal(s, node, id, requester))
  {
    if (node, id) in s.current {
      var k := s.current[(node, id)];
      if IsRequesterAllowed(s.tasks[k].owner, requester) {
        assert Authorized(steps, s.tasks[k].id, s.tasks[k].owner);
      }
    }
  }

  lemma SaveOwnerKeepsOrigin(steps: seq<Step>, s: State, k: nat, ok: bool)
    requires WellFormed(s) && StemsFromRequests(steps, s)
    ensures StemsFromRequests(steps, SaveOwnerStep(s, k, ok))
  {
  }

  lemma ReadMarkerKeepsOrigin(steps: seq<Step>, s: State, k: nat, ok: bool)
    requires WellFormed(s) && StemsFromRequests(steps, s)
    ensures StemsFromRequests(steps, ReadMarkerStep(s, k, ok))
  {
    if k < |s.tasks| {
      var t := s.tasks[k];
      if MarkerDecides(s, t, ok) && !t.cancelled { assert Authorized(steps, t.id, t.owner); }
    }
  }

  lemma FinishRegisterKeepsOrigin(steps: seq<Step>, s: State, k: nat)
    requires WellFormed(s) && StemsFromRequests(steps, s)
    ensures StemsFromRequests(steps, FinishRegisterStep(s, k))
  {
  }

  lemma CancelHereKeepsOrigin(steps: seq<Step>, s: State, c: nat)
    requires WellFormed(s) && StemsFromRequests(steps, s)
    ensures StemsFromRequests(steps, CancelHereStep(s, c))
  {
    if c < |s.calls| {
      CancelLocalKeepsOrigin(steps, s, s.calls[c].node, s.calls[c].id, s.calls[c].requester);
    }
  }

  lemma SetMarkerKeepsOrigin(steps: seq<Step>, s: State, c: nat, ok: bool)
    requires WellFormed(s) && StemsFromRequests(steps, s)
    ensures StemsFromRequests(steps, SetMarkerStep(s, c, ok))
  {
  }

  lemma PublishKeepsOrigin(steps: seq<Step>, s: State, c: nat, ok: bool)
    requires WellFormed(s) && StemsFromRequests(steps, s) && NoneMisread(steps)
    ensures StemsFromRequests(steps, PublishStep(s, c, ok))
  {
    if c < |s.calls| {
      var call := s.calls[c];
      assert !Misread(call.id, call.requester);
      assert PayloadRequested(steps, Payload(call.id, call.requester));
    }
  }

  lemma MessageKeepsOrigin(steps: seq<Step>, s: State, node: nat, payload: string)
    requires WellFormed(s) && StemsFromRequests(steps, s)
    ensures StemsFromRequests(steps, TakeMessage(s, node, payload))
    ensures StemsFromRequests(steps, DeliverStep(s, node, payload))
  {
    if node < |s.inbox| && payload in s.inbox[node] {
      var (id, requester) := SplitPayload(payload);
      assert PayloadRequested(steps, payload);
      if id != "" { CancelLocalKeepsOrigin(steps, TakeMessage(s, node, payload), node, id, requester); }
    }
  }

  lemma {:induction false} InsertKeepsOrigin(steps: seq<Step>, s: State, node: nat, id: string, owner: string)
    requires WellFormed(s) && StemsFromRequests(steps, s)
    ensures StemsFromRequests(steps, RegisterInsertStep(s, node, id, owner))
  {
    hide Requested, PayloadRequested, Authorized;
  }

  lemma {:induction false} RequestKeepsOrigin(steps: seq<Step>, s: State, node: nat, id: string, requester: string,
                                              ok: bool)
    requires WellFormed(s) && StemsFromRequests(steps, s) && Requested(steps, id, requester)
    ensures StemsFromRequests(steps, CancelByUserStep(s, node, id, requester, ok))
    ensures requester == SYSTEM_REQUESTER ==> StemsFromRequests(steps, CancelBySystemStep(s, node, id))
  {
    hide Requested, PayloadRequested, Authorized;
  }

  lemma {:induction false} OlderOrigin(steps: seq<Step>, s: State, step: Step)
    requires WellFormed(s) && StemsFromRequests(steps, s)
    ensures StemsFromRequests(steps + [step], s)
    ensures forall id, r :: Requests(step, id, r) ==> Requested(steps + [step], id, r)
  {
    RequestedMore(steps, step);
    hide Requested, PayloadRequested, Authorized;
  }

  /** An entry that goes away leaves the origin of all others. */
  lemma ForgettingKeepsOrigin(steps: seq<Step>, s: State, node: nat, id: string)
    requires WellFormed(s) && StemsFromRequests(steps, s)
    ensures StemsFromRequests(steps, s.(current := s.current - {(node, id)}))
    ensures StemsFromRequests(steps, s.(owners := s.owners - {id}, markers := s.markers - {id}))
    ensures StemsFromRequests(steps, s.(owners := s.owners - {id}))
    ensures StemsFromRequests(steps, s.(markers := s.markers - {id}))
  {
  }

  lemma {:induction false} StepKeepsOrigin(steps: seq<Step>, s: State, step: Step)
    requires WellFormed(s) && StemsFromRequests(steps, s) && NoneMisread(steps + [step])
    ensures StemsFromRequests(steps + [step], Apply(s, step))
  {
    hide SaveOwnerStep, RegisterInsertStep, ReadMarkerStep, FinishRegisterStep, CancelByUserStep, CancelBySystemStep,
      CancelHereStep, SetMarkerStep, PublishStep, DeliverStep, TakeMessage, StemsFromRequests, WellFormed;
    hide NoneMisread, Misread, IsRequesterAllowed, Payload, SplitPayload, IsBlank;
    OlderOrigin(steps, s, step);
    var all := steps + [step];
    match step
    case RegisterInsert(node, id, owner) => InsertKeepsOrigin(all, s, node, id, owner);
    case SaveOwner(k, ok) => SaveOwnerKeepsOrigin(all, s, k, ok);
    case ReadMarker(k, ok) => ReadMarkerKeepsOrigin(all, s, k, ok);
    case FinishRegister(k) => FinishRegisterKeepsOrigin(all, s, k);
    case CancelByUser(node, id, requester, ok) => RequestKeepsOrigin(all, s, node, id, requester, ok);
    case CancelBySystem(node, id) => RequestKeepsOrigin(all, s, node, id, SYSTEM_REQUESTER, true);
    case CancelHere(c) => CancelHereKeepsOrigin(all, s, c);
    case SetMarker(c, ok) => SetMarkerKeepsOrigin(all, s, c, ok);
    case Publish(c, ok) => PublishKeepsOrigin(all, s, c, ok);
    case Deliver(node, payload) => MessageKeepsOrigin(all, s, node, payload);
    case LoseMessage(node, payload) => MessageKeepsOrigin(all, s, node, payload);
    case UnregisterLocal(node, id) => ForgettingKeepsOrigin(all, s, node, id);
    case UnregisterRedis(id) => ForgettingKeepsOrigin(all, s, 0, id);
    case LapseOwner(id) => ForgettingKeepsOrigin(all, s, 0, id);
    case LapseMarker(id) => ForgettingKeepsOrigin(all, s, 0, id);
  }

  lemma {:induction false} RunStemsFromRequests(linked: seq<bool>, steps: seq<Step>)
    requires NoneMisread(steps)
    ensures StemsFromRequests(steps, Run(linked, steps))
  {
    if steps != [] {
      var front, last := steps[..|steps| - 1], steps[|steps| - 1];
      assert steps == front + [last];
      RequestedMore(front, last);
      RunStemsFromRequests(linked, front);
      StepKeepsOrigin(front, Run(linked, front), last);
    }
  }

  /** The system or the exact non-empty owner of the task has asked for its ID. */
  ghost predicate AskedFor(steps: seq<Step>, t: Task) {
    exists i :: 0 <= i < |steps| &&
      (Requests(steps[i], t.id, SYSTEM_REQUESTER) || (t.owner != "" && Requests(steps[i], t.id, t.owner)))
  }

  /**
   Authority. Whatever the interleaving, and whatever Redis fails, forgets or drops: if no request is
   misread, a task is cancelled only if the system or its exact non-empty owner has asked for its ID before.
   */
  lemma CancelledOnlyByOwnerOrSystem(linked: seq<bool>, steps: seq<Step>, s: State, k: nat)
    requires NoneMisread(steps) && Reaches(linked, steps, s)
    requires k < |s.tasks| && s.tasks[k].cancelled
    ensures AskedFor(steps, s.tasks[k])
  {
    RunStemsFromRequests(linked, steps);
    var t := s.tasks[k];
    assert WillBeCancelled(t);
    var requester :| Requested(steps, t.id, requester) && IsRequesterAllowed(t.owner, requester);
    var i :| 0 <= i < |steps| && Requests(steps[i], t.id, requester);
  }

  lemma RunSnoc(linked: seq<bool>, steps: seq<Step>, step: Step)
    ensures Run(linked, steps + [step]) == Apply(Run(linked, steps), step)
  {
    assert (steps + [step])[..|steps|] == steps;
  }

  // ----- Exactly when authority holds -----

  /** All tasks that the run has cancelled were asked for. */
  ghost predicate IsSafe(linked: seq<bool>, steps: seq<Step>) {
    forall k :: 0 <= k < |Run(linked, steps).tasks| && Run(linked, steps).tasks[k].cancelled ==>
      AskedFor(steps, Run(linked, steps).tasks[k])
  }

  /** All requests of the run are among those that are `allowed` to occur. */
  ghost predicate RequestsOnly(steps: seq<Step>, allowed: (string, string) -> bool) {
    forall id, requester :: Requested(steps, id, requester) ==> allowed(id, requester)
  }

  function Ask(id: string, requester: string): Step {
    if requester == SYSTEM_REQUESTER then CancelBySystem(0, id) else CancelByUser(0, id, requester, true)
  }

  /** A node with Redis on which task `a` of owner `u` is registered and nothing else has happened to owner keys. */
  function OneTask(a: string, u: string, calls: seq<Call>, markers: map<string, string>, inbox: multiset<string>,
                   cancelled: bool): State
  {
    State([true], [Task(0, a, u, cancelled, Inserted)], map[(0, a) := 0], map[], markers, calls, [inbox])
  }

  lemma MisreadRequest(a: string, u: string, id: string, r: string)
    ensures var s := OneTask(a, u, [], map[], multiset{}, false);
            && WellFormed(s) && Apply(Initial([true]), RegisterInsert(0, a, u)) == s
            && Apply(s, Ask(id, r)) == OneTask(a, u, [Call(0, id, r, Approved)], map[], multiset{}, false)
  {
    var s := Initial([true]);
    assert s.inbox == [multiset{}];
    assert RegisterInsertStep(s, 0, a, u).current == map[(0, a) := 0];
  }

  lemma {:induction false} MisreadMark(a: string, u: string, id: string, r: string)
    requires !IsBlank(id)
    ensures var s := OneTask(a, u, [Call(0, id, r, Approved)], map[], multiset{}, false);
            && WellFormed(s)
            && Apply(s, SetMarker(0, true)) == OneTask(a, u, [Call(0, id, r, Marked)], map[id := r], multiset{}, false)
  {
    hide IsBlank;
    var s := OneTask(a, u, [Call(0, id, r, Approved)], map[], multiset{}, false);
    assert s.markers[id := r] == map[id := r];
  }

  lemma {:induction false} MisreadBroadcast(a: string, u: string, id: string, r: string)
    ensures var m := OneTask(a, u, [Call(0, id, r, Marked)], map[id := r], multiset{}, false);
            && WellFormed(m)
            && Apply(m, Publish(0, true)) ==
               OneTask(a, u, [Call(0, id, r, Published)], map[id := r], multiset{Payload(id, r)}, false)
  {
    hide Payload;
    var p := Payload(id, r);
    var m := OneTask(a, u, [Call(0, id, r, Marked)], map[id := r], multiset{}, false);
    assert m.inbox[0] + multiset{p} == multiset{p};
    assert Broadcast(m, p) == [multiset{p}];
  }

  lemma {:induction false} MisreadDelivery(a: string, u: string, id: string, r: string)
    requires SplitPayload(Payload(id, r)) == (a, u) && a != "" && u != ""
    ensures var s := OneTask(a, u, [Call(0, id, r, Published)], map[id := r], multiset{Payload(id, r)}, false);
            && WellFormed(s) && Apply(s, Deliver(0, Payload(id, r))).tasks == [Task(0, a, u, true, Inserted)]
  {
    hide SplitPayload, Payload;
  }

  /** A task with the ID and the owner for which the request will be taken, and the request. */
  function MisreadRun(id: string, r: string): seq<Step> {
    var (a, u) := SplitPayload(Payload(id, r));
    [RegisterInsert(0, a, u)] + [Ask(id, r)] + [SetMarker(0, true)] + [Publish(0, true)] + [Deliver(0, Payload(id, r))]
  }

  lemma {:induction false} MisreadRunCancels(id: string, r: string)
    requires Misread(id, r)
    ensures var (a, u) := SplitPayload(Payload(id, r));
            Run([true], MisreadRun(id, r)).tasks == [Task(0, a, u, true, Inserted)]
  {
    var (a, u) := SplitPayload(Payload(id, r));
    if IsBlank(id) { BlankIsNotMisread(id, r); }
    MisreadRequest(a, u, id, r);
    MisreadMark(a, u, id, r);
    MisreadBroadcast(a, u, id, r);
    MisreadDelivery(a, u, id, r);
    hide Apply, OneTask, Ask, Payload, SplitPayload;
    var one := [RegisterInsert(0, a, u)];
    var two := one + [Ask(id, r)];
    var three := two + [SetMarker(0, true)];
    RunSnoc([true], [], RegisterInsert(0, a, u));
    assert [] + one == one;
    RunSnoc([true], one, Ask(id, r));
    RunSnoc([true], two, SetMarker(0, true));
    RunSnoc([true], three, Publish(0, true));
    RunSnoc([true], three + [Publish(0, true)], Deliver(0, Payload(id, r)));
  }

  lemma {:induction false} MisreadRunRequests(id: string, r: string, x: string, y: string)
    ensures Requested(MisreadRun(id, r), x, y) <==> x == id && y == r
  {
    hide Payload, SplitPayload, SYSTEM_REQUESTER;
    assert MisreadRun(id, r)[1] == Ask(id, r);
    if x == id && y == r { assert Requests(MisreadRun(id, r)[1], x, y); }
  }

  /** A request that is misread cancels a task that nobody asked for. */
  lemma {:induction false} MisreadIsUnsafe(id: string, r: string)
    requires Misread(id, r)
    ensures !IsSafe([true], MisreadRun(id, r))
  {
    var (a, u) := SplitPayload(Payload(id, r));
    MisreadRunCancels(id, r);
    if r == SYSTEM_REQUESTER { SystemNameSurvives(id); }
    hide Run, MisreadRun, SplitPayload, Payload, Requests;
    var steps := MisreadRun(id, r);
    var t := Run([true], steps).tasks[0];
    if AskedFor(steps, t) {
      var i :| 0 <= i < |steps| &&
        (Requests(steps[i], t.id, SYSTEM_REQUESTER) || (t.owner != "" && Requests(steps[i], t.id, t.owner)));
      MisreadRunRequests(id, r, a, SYSTEM_REQUESTER);
      MisreadRunRequests(id, r, a, u);
    }
  }

  /**
   Authority, exactly. Whatever requests may occur: all runs with them are safe if and only if none of
   them is misread.
   */
  lemma {:induction false} AuthorityIff(allowed: (string, string) -> bool)
    ensures (forall linked, steps :: RequestsOnly(steps, allowed) ==> IsSafe(linked, steps)) <==>
              forall id, requester :: allowed(id, requester) ==> !Misread(id, requester)
  {
    hide Run, Misread, Requested;
    if forall id, requester :: allowed(id, requester) ==> !Misread(id, requester) {
      forall linked, steps | RequestsOnly(steps, allowed) ensures IsSafe(linked, steps) {
        AllSafe(linked, steps);
      }
    }
    if id, r :| allowed(id, r) && Misread(id, r) {
      MisreadIsUnsafe(id, r);
      forall x, y ensures Requested(MisreadRun(id, r), x, y) <==> x == id && y == r { MisreadRunRequests(id, r, x, y); }
      assert RequestsOnly(MisreadRun(id, r), allowed);
    }
  }

  lemma {:induction false} AllSafe(linked: seq<bool>, steps: seq<Step>)
    requires NoneMisread(steps)
    ensures IsSafe(linked, steps)
  {
    hide AskedFor, Run, NoneMisread;
    var s := Run(linked, steps);
    forall k | 0 <= k < |s.tasks| && s.tasks[k].cancelled ensures AskedFor(steps, s.tasks[k]) {
      CancelledOnlyByOwnerOrSystem(linked, steps, s, k);
    }
  }
}
