/**
 The methods of `streamTaskManager` (`internal/biz/rag/stream_task_manager.go`) as code over the fields
 they update: the task maps of all nodes and the keys and messages in Redis.

 Each method performs its sections one after the other and records them, so that what was proved of all
 runs holds of the object after any sequence of calls. Whether a Redis command succeeds is a parameter.
 */
module StreamTaskManager {
  import opened Text
  import opened StreamCancel

  /** The sections of `publishCancel`, with and without Redis. */
  function PublishSteps(byRedis: bool, call: nat, marked: bool, published: bool): seq<Step> {
    if byRedis then [SetMarker(call, marked)] + [Publish(call, published)] else [CancelHere(call)]
  }

  class StreamTaskManagers {
    const linked: seq<bool>
    var tasks: seq<Task>
    var current: map<(nat, string), nat>
    var owners: map<string, string>
    var markers: map<string, string>
    var calls: seq<Call>
    var inbox: seq<multiset<string>>
    ghost var history: seq<Step>

    function Snapshot(): State
      reads this
    {
      State(linked, tasks, current, owners, markers, calls, inbox)
    }

    /** The fields are where the recorded sections have brought them. */
    ghost predicate Valid()
      reads this
    {
      Snapshot() == Run(linked, history)
    }

    constructor (linked: seq<bool>)
      ensures Valid() && this.linked == linked && history == []
    {
      this.linked := linked;
      tasks, current, owners, markers, calls := [], map[], map[], map[], [];
      inbox := seq(|linked|, _ => multiset{});
      history := [];
    }

    // ----- register -----

    method InsertTask(node: nat, id: string, owner: string) returns (task: nat)
      requires Valid() && node < |linked|
      modifies this
      ensures Valid() && history == old(history) + [RegisterInsert(node, id, owner)]
      ensures task == old(|tasks|) && |tasks| == task + 1 && tasks[task] == Task(node, id, owner, false, Inserted)
      ensures current == old(current)[(node, id) := task] && unchanged(this`owners, this`markers)
    {
      hide Run, Apply;
      RunSnoc(linked, history, RegisterInsert(node, id, owner));
      InsertTakes(Snapshot(), node, id, owner);
      task := |tasks|;
      tasks := tasks + [Task(node, id, owner, false, Inserted)];
      current := current[(node, id) := task];
      history := history + [RegisterInsert(node, id, owner)];
    }

    method SaveOwnerKey(task: nat, ok: bool)
      requires Valid() && task < |tasks| && tasks[task].pc == Inserted
      modifies this
      ensures Valid() && history == old(history) + [SaveOwner(task, ok)]
      ensures tasks == old(tasks)[task := old(tasks[task]).(pc := OwnerSaved)] && unchanged(this`current, this`markers)
      ensures var t := old(tasks[task]);
              owners == if linked[t.node] && !IsBlank(t.owner) && ok then old(owners)[t.id := t.owner] else old(owners)
    {
      hide Run, Apply, IsBlank;
      RunSnoc(linked, history, SaveOwner(task, ok));
      SaveOwnerTakes(Snapshot(), task, ok);
      var t := tasks[task];
      if linked[t.node] && !IsBlank(t.owner) && ok {
        owners := owners[t.id := t.owner];
      }
      tasks := tasks[task := t.(pc := OwnerSaved)];
      history := history + [SaveOwner(task, ok)];
    }

    /** `isCancellationMarked` */
    method IsCancellationMarked(task: nat, ok: bool) returns (marked: bool)
      requires Valid() && task < |tasks|
      ensures marked == MarkerDecides(Snapshot(), tasks[task], ok)
      ensures var t := tasks[task];
              marked <==>
                t.cancelled ||
                (linked[t.node] && !IsBlank(t.id) && ok && t.id in markers &&
                 (markers[t.id] == SYSTEM_REQUESTER || (t.owner != "" && markers[t.id] == t.owner)))
    {
      hide IsBlank;
      var t := tasks[task];
      if t.cancelled {
        return true;
      }
      if !linked[t.node] || IsBlank(t.id) {
        return false;
      }
      if !ok || t.id !in markers {
        return false;
      }
      if !IsRequesterAllowed(t.owner, markers[t.id]) {
        return false;
      }
      return true;
    }

    method DecideByMarker(task: nat, ok: bool)
      requires Valid() && task < |tasks| && tasks[task].pc == OwnerSaved
      modifies this
      ensures Valid() && history == old(history) + [ReadMarker(task, ok)]
      ensures tasks ==
              old(tasks)[task := old(tasks[task]).(pc := Decided(old(MarkerDecides(Snapshot(), tasks[task], ok))))]
      ensures unchanged(this`current, this`owners)
    {
      hide Run, Apply, MarkerDecides;
      RunSnoc(linked, history, ReadMarker(task, ok));
      ReadMarkerTakes(Snapshot(), task, ok);
      var marked := IsCancellationMarked(task, ok);
      tasks := tasks[task := tasks[task].(pc := Decided(marked))];
      history := history + [ReadMarker(task, ok)];
    }

    method FinishRegistration(task: nat)
      requires Valid() && task < |tasks| && tasks[task].pc.Decided?
      modifies this
      ensures Valid() && history == old(history) + [FinishRegister(task)]
      ensures var t := old(tasks[task]);
              tasks == old(tasks)[task := t.(pc := Returned, cancelled := t.cancelled || t.pc.cancel)]
      ensures unchanged(this`current, this`owners)
    {
      hide Run, Apply;
      RunSnoc(linked, history, FinishRegister(task));
      FinishTakes(Snapshot(), task);
      var t := tasks[task];
      if t.pc.cancel {
        t := t.(cancelled := true);
      }
      tasks := tasks[task := t.(pc := Returned)];
      history := history + [FinishRegister(task)];
    }

    /** The new task is cancelled at once if the marker was set by someone who may. */
    method Register(node: nat, id: string, owner: string, saved: bool, read: bool) returns (task: nat)
      requires Valid() && node < |linked|
      modifies this
      ensures Valid() && task == old(|tasks|) && |tasks| == task + 1
      ensures history == old(history) + [RegisterInsert(node, id, owner)] + [SaveOwner(task, saved)] +
                         [ReadMarker(task, read)] + [FinishRegister(task)]
      ensures tasks[task] == Task(node, id, owner, tasks[task].cancelled, Returned)
      ensures current == old(current)[(node, id) := task]
      ensures owners == if linked[node] && !IsBlank(owner) && saved then old(owners)[id := owner] else old(owners)
      ensures tasks[task].cancelled <==>
                linked[node] && !IsBlank(id) && read && id in old(markers) &&
                (old(markers[id]) == SYSTEM_REQUESTER || (owner != "" && old(markers[id]) == owner))
    {
      hide Run, IsBlank;
      task := InsertTask(node, id, owner);
      SaveOwnerKey(task, saved);
      DecideByMarker(task, read);
      FinishRegistration(task);
    }

    // ----- cancel -----

    /** `cancelLocal` */
    method CancelOnNode(node: nat, id: string, requester: string)
      requires WellFormed(Snapshot())
      modifies this`tasks
      ensures Snapshot() == CancelLocal(old(Snapshot()), node, id, requester)
      ensures |tasks| == old(|tasks|)
      ensures forall k :: 0 <= k < |tasks| ==>
                var t := old(tasks[k]);
                tasks[k] ==
                  if (node, id) in current && current[(node, id)] == k &&
                     (requester == SYSTEM_REQUESTER || (t.owner != "" && t.owner == requester))
                  then t.(cancelled := true) else t
    {
      if (node, id) !in current {
        return;
      }
      var task := current[(node, id)];
      if !IsRequesterAllowed(tasks[task].owner, requester) {
        return;
      }
      tasks := tasks[task := tasks[task].(cancelled := true)];
    }

    /** `publishCancel`: the marker first, then the broadcast. */
    method PublishCancel(call: nat, marked: bool, published: bool)
      requires Valid() && call < |calls| && calls[call].pc == Approved
      modifies this
      ensures Valid() && |calls| == old(|calls|) && calls[call].pc == Published
      ensures history == old(history) +
                         PublishSteps(linked[old(calls[call].node)] && !IsBlank(old(calls[call].id)),
                                      call, marked, published)
      ensures var c := old(calls[call]);
              var payload := if c.requester == "" then c.id else c.id + "|" + c.requester;
              if linked[c.node] && !IsBlank(c.id) then
                && tasks == old(tasks)
                && markers == (if marked then old(markers)[c.id := c.requester] else old(markers))
                && |inbox| == old(|inbox|)
                && forall n :: 0 <= n < |inbox| ==>
                     inbox[n] == old(inbox[n]) + if published && linked[n] then multiset{payload} else multiset{}
              else unchanged(this`markers, this`inbox)
    {
      hide Run, Apply, IsBlank, CancelLocal, Payload;
      var c := calls[call];
      if !linked[c.node] || IsBlank(c.id) {
        RunSnoc(linked, history, CancelHere(call));
        CancelHereTakes(Snapshot(), call);
        CancelOnNode(c.node, c.id, c.requester);
        calls := calls[call := c.(pc := Published)];
        history := history + [CancelHere(call)];
        return;
      }
      MarkFor(call, marked);
      BroadcastFor(call, published);
      assert history == old(history) + ([SetMarker(call, marked)] + [Publish(call, published)]);
    }

    method MarkFor(call: nat, ok: bool)
      requires Valid() && call < |calls| && calls[call].pc == Approved
      requires linked[calls[call].node] && !IsBlank(calls[call].id)
      modifies this
      ensures Valid() && history == old(history) + [SetMarker(call, ok)]
      ensures calls == old(calls)[call := old(calls[call]).(pc := Marked)] && unchanged(this`tasks, this`inbox)
      ensures var c := old(calls[call]); markers == if ok then old(markers)[c.id := c.requester] else old(markers)
    {
      hide Run, Apply, IsBlank;
      RunSnoc(linked, history, SetMarker(call, ok));
      MarkTakes(Snapshot(), call, ok);
      var c := calls[call];
      if ok {
        markers := markers[c.id := c.requester];
      }
      calls := calls[call := c.(pc := Marked)];
      history := history + [SetMarker(call, ok)];
    }

    static method JoinPayload(id: string, requester: string) returns (payload: string)
      ensures payload == Payload(id, requester)
      ensures payload == if requester == "" then id else id + "|" + requester
    {
      payload := id;
      if requester != "" {
        payload := id + [SEPARATOR] + requester;
      }
    }

    method BroadcastFor(call: nat, ok: bool)
      requires Valid() && call < |calls| && calls[call].pc == Marked
      modifies this
      ensures Valid() && history == old(history) + [Publish(call, ok)]
      ensures calls == old(calls)[call := old(calls[call]).(pc := Published)] && unchanged(this`tasks, this`markers)
      ensures var c := old(calls[call]);
              var payload := if c.requester == "" then c.id else c.id + "|" + c.requester;
              |inbox| == old(|inbox|) &&
              forall n :: 0 <= n < |inbox| ==>
                inbox[n] == old(inbox[n]) + if ok && linked[n] then multiset{payload} else multiset{}
    {
      hide Run, Apply, Payload;
      RunSnoc(linked, history, Publish(call, ok));
      PublishTakes(Snapshot(), call, ok);
      var c := calls[call];
      if ok {
        var payload := JoinPayload(c.id, c.requester);
        inbox := Broadcast(Snapshot(), payload);
      }
      calls := calls[call := c.(pc := Published)];
      history := history + [Publish(call, ok)];
    }

    /** The owner key is compared; where it cannot be read, `register` will compare the marker. */
    method ApproveRequest(node: nat, id: string, requester: string, ok: bool) returns (call: nat)
      requires Valid() && node < |linked|
      modifies this
      ensures Valid() && history == old(history) + [CancelByUser(node, id, requester, ok)]
      ensures call == old(|calls|) && |calls| == call + 1
      ensures calls[call] == Call(node, id, requester, calls[call].pc)
      ensures calls[call].pc ==
              if linked[node] && ok && id in old(owners) && old(owners[id]) != "" && old(owners[id]) != requester
                                then Refused else Approved
    {
      hide Run, Apply;
      RunSnoc(linked, history, CancelByUser(node, id, requester, ok));
      ApproveTakes(Snapshot(), node, id, requester, ok);
      var pc := Approved;
      if linked[node] && ok && id in owners {
        if owners[id] != "" && owners[id] != requester {
          pc := Refused;
        }
      }
      call := |calls|;
      calls := calls + [Call(node, id, requester, pc)];
      history := history + [CancelByUser(node, id, requester, ok)];
    }

    /** `cancelByUser` answers an error only to a requester whom the owner key contradicts. */
    method CancelTaskByUser(node: nat, id: string, requester: string, read: bool, marked: bool, published: bool)
        returns (refused: bool)
      requires Valid() && node < |linked|
      modifies this
      ensures Valid()
      ensures refused <==>
              linked[node] && read && id in old(owners) && old(owners[id]) != "" && old(owners[id]) != requester
      ensures history == old(history) + [CancelByUser(node, id, requester, read)] +
                         if refused then []
                         else PublishSteps(linked[node] && !IsBlank(id), old(|calls|), marked, published)
    {
      hide Run, PublishSteps;
      var call := ApproveRequest(node, id, requester, read);
      if calls[call].pc == Refused {
        return true;
      }
      PublishCancel(call, marked, published);
      return false;
    }

    /** `cancel` */
    method CancelTaskBySystem(node: nat, id: string, marked: bool, published: bool)
      requires Valid() && node < |linked|
      modifies this
      ensures Valid()
      ensures history == old(history) + [CancelBySystem(node, id)] +
                         PublishSteps(linked[node] && !IsBlank(id), old(|calls|), marked, published)
    {
      hide Run, PublishSteps;
      var call := ApproveSystemRequest(node, id);
      PublishCancel(call, marked, published);
    }

    method ApproveSystemRequest(node: nat, id: string) returns (call: nat)
      requires Valid() && node < |linked|
      modifies this
      ensures Valid() && history == old(history) + [CancelBySystem(node, id)]
      ensures call == old(|calls|) && |calls| == call + 1 && calls[call] == Call(node, id, SYSTEM_REQUESTER, Approved)
    {
      hide Run, Apply;
      RunSnoc(linked, history, CancelBySystem(node, id));
      SystemTakes(Snapshot(), node, id);
      call := |calls|;
      calls := calls + [Call(node, id, SYSTEM_REQUESTER, Approved)];
      history := history + [CancelBySystem(node, id)];
    }

    // ----- the listener and unregister -----

    /** One turn of the loop of `listenCancellationTopic`. */
    method HandleMessage(node: nat, payload: string)
      requires Valid() && node < |linked| && payload in inbox[node]
      modifies this
      ensures Valid() && history == old(history) + [Deliver(node, payload)]
    {
      hide Run, Apply, SplitPayload, CancelLocal;
      RunSnoc(linked, history, Deliver(node, payload));
      DeliverTakes(Snapshot(), node, payload);
      inbox := inbox[node := inbox[node] - multiset{payload}];
      var (id, requester) := SplitPayload(payload);
      if id != "" {
        CancelOnNode(node, id, requester);
      }
      history := history + [Deliver(node, payload)];
    }

    method Unregister(node: nat, id: string, ok: bool)
      requires Valid() && node < |linked|
      modifies this
      ensures Valid()
      ensures history == old(history) + [UnregisterLocal(node, id)] +
                         if linked[node] && ok then [UnregisterRedis(id)] else []
      ensures current == old(current) - {(node, id)}
      ensures if linked[node] && ok then owners == old(owners) - {id} && markers == old(markers) - {id}
              else unchanged(this`owners, this`markers)
    {
      hide Run;
      DropTask(node, id);
      if !linked[node] {
        return;
      }
      if ok {
        DeleteKeys(id);
      }
    }

    method DropTask(node: nat, id: string)
      requires Valid()
      modifies this
      ensures Valid() && history == old(history) + [UnregisterLocal(node, id)]
      ensures current == old(current) - {(node, id)} && unchanged(this`owners, this`markers)
    {
      hide Run, Apply;
      RunSnoc(linked, history, UnregisterLocal(node, id));
      UnregisterTakes(Snapshot(), node, id);
      current := current - {(node, id)};
      history := history + [UnregisterLocal(node, id)];
    }

    method DeleteKeys(id: string)
      requires Valid()
      modifies this
      ensures Valid() && history == old(history) + [UnregisterRedis(id)]
      ensures owners == old(owners) - {id} && markers == old(markers) - {id} && unchanged(this`current)
    {
      hide Run, Apply;
      RunSnoc(linked, history, UnregisterRedis(id));
      UnregisterTakes(Snapshot(), 0, id);
      markers := markers - {id};
      owners := owners - {id};
      history := history + [UnregisterRedis(id)];
    }

    /**
     What holds of all runs holds of the object: if no request was misread, a cancelled task was asked for
     by its owner or the system.
     */
    lemma CancelledWithAuthority(task: nat)
      requires Valid() && NoneMisread(history) && task < |tasks| && tasks[task].cancelled
      ensures AskedFor(history, tasks[task])
    {
      CancelledOnlyByOwnerOrSystem(linked, history, Snapshot(), task);
    }
  }
}
