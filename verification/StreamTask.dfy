/**
 One stream task's handle (`bindHandle` and `cancelTask` of `internal/biz/rag/stream_task_manager.go`).

 Both methods work in two parts: a section under the task's mutex, then calls outside of it. The state
 machine runs any number of bindings, each with its own handle, and any number of cancels in every order
 of these parts. The class has the parts as methods, which record what they do: what is proved of all runs
 holds of the object, whoever calls its parts in whatever order.
 */
module StreamTask {
  import opened Basics

  /**
   A call of `bindHandle`, known by its number as its handle is: not entered; section passed, having seen
   the cancelled flag; returned.
   */
  datatype Binding = Waiting | Seen(late: bool) | Done

  /** `once.Do`: idle; running before the section; running after it, holding the handle to cancel; finished. */
  datatype Once = Idle | Started | Holding(held: Option<nat>) | Finished

  datatype State = State(
    cancelled: bool,
    handle: Option<nat>,
    bindings: seq<Binding>,
    once: Once,
    contextCancels: nat,     // calls of the context's cancel function
    handleCancels: seq<nat>) // calls of `Cancel`, per handle

  datatype Step =
    | BindEnter(h: nat)   // the section of `bindHandle`
    | BindLeave(h: nat)   // its call of `handle.Cancel`, if due
    | CancelEnter         // a call of `cancelTask`; only the first one gets into `once`
    | CancelMark          // the section of `cancelTask`
    | CancelLeave         // its calls of `cancel` and `handle.Cancel`

  function Initial(n: nat): State {
    State(false, None, seq(n, _ => Waiting), Idle, 0, seq(n, _ => 0))
  }

  predicate WellFormed(s: State) {
    && |s.bindings| == |s.handleCancels|
    && (s.handle.Some? ==> s.handle.value < |s.bindings|)
    && (s.once.Holding? && s.once.held.Some? ==> s.once.held.value < |s.bindings|)
  }

  function CancelHandle(s: State, h: nat): State
    requires h < |s.handleCancels|
  {
    s.(handleCancels := s.handleCancels[h := s.handleCancels[h] + 1])
  }

  function Apply(s: State, step: Step): (r: State)
    requires WellFormed(s)
    ensures WellFormed(r) && |r.bindings| == |s.bindings|
  {
    match step
    case BindEnter(h) =>
      if h < |s.bindings| && s.bindings[h] == Waiting then
        s.(handle := Some(h), bindings := s.bindings[h := Seen(s.cancelled)])
      else s
    case BindLeave(h) =>
      if h < |s.bindings| && s.bindings[h].Seen? then
        var left := s.(bindings := s.bindings[h := Done]);
        if s.bindings[h].late then CancelHandle(left, h) else left
      else s
    case CancelEnter => if s.once == Idle then s.(once := Started) else s
    case CancelMark => if s.once == Started then s.(cancelled := true, once := Holding(s.handle)) else s
    case CancelLeave =>
      if s.once.Holding? then
        var left := s.(once := Finished, contextCancels := s.contextCancels + 1);
        if s.once.held.Some? then CancelHandle(left, s.once.held.value) else left
      else s
  }

  function Run(n: nat, steps: seq<Step>): (s: State)
    ensures WellFormed(s) && |s.bindings| == n
  {
    if steps == [] then Initial(n) else Apply(Run(n, steps[..|steps| - 1]), steps[|steps| - 1])
  }

  /** The section of `cancelTask` has been passed at some time. */
  predicate MarkPassed(s: State) {
    s.once.Holding? || s.once.Finished?
  }

  /** The handle that `cancelTask` took under the mutex, over a whole run. */
  ghost function Taken(n: nat, steps: seq<Step>): Option<nat> {
    if steps == [] then None else
    var before, step := Run(n, steps[..|steps| - 1]), steps[|steps| - 1];
    if step == CancelMark && before.once == Started then before.handle else Taken(n, steps[..|steps| - 1])
  }

  /** How often handle `h` has been cancelled, told from where its binding and the cancel stand. */
  ghost predicate CountsAre(s: State, taken: Option<nat>) {
    && WellFormed(s)
    && s.cancelled == MarkPassed(s)
    && s.contextCancels == (if s.once.Finished? then 1 else 0)
    && (s.once.Holding? ==> taken == s.once.held)
    && (!MarkPassed(s) ==> taken == None)
    && (taken.Some? ==>
          taken.value < |s.bindings| && (s.bindings[taken.value] == Seen(false) || s.bindings[taken.value] == Done))
    && (s.handle.Some? ==> s.bindings[s.handle.value] != Waiting)
    && forall h :: 0 <= h < |s.bindings| ==> CountIs(s, taken, h)
  }

  ghost predicate CountIs(s: State, taken: Option<nat>, h: nat)
    requires h < |s.bindings| == |s.handleCancels|
  {
    && (s.bindings[h] == Waiting ==> s.handleCancels[h] == 0)
    && (s.bindings[h] == Seen(true) ==> s.handleCancels[h] == 0 && MarkPassed(s))
    && (s.bindings[h] == Seen(false) ==> s.handleCancels[h] == if taken == Some(h) && s.once.Finished? then 1 else 0)
    && (s.bindings[h] == Done && taken == Some(h) ==> s.handleCancels[h] == if s.once.Finished? then 1 else 0)
    && (s.bindings[h] == Done && taken != Some(h) ==> s.handleCancels[h] <= if MarkPassed(s) then 1 else 0)
    && (s.handle == Some(h) && !s.cancelled ==>
         s.bindings[h] == Seen(false) || (s.bindings[h] == Done && s.handleCancels[h] == 0))
    && (s.handle == Some(h) && s.cancelled && taken != Some(h) ==>
         s.bindings[h] == Seen(true) || (s.bindings[h] == Done && s.handleCancels[h] == 1))
  }

  lemma BindEnterCounts(s: State, taken: Option<nat>, b: nat)
    requires CountsAre(s, taken)
    ensures CountsAre(Apply(s, BindEnter(b)), taken)
  {
    forall h | 0 <= h < |s.bindings| ensures CountIs(Apply(s, BindEnter(b)), taken, h) { assert CountIs(s, taken, h); }
  }

  lemma BindLeaveCounts(s: State, taken: Option<nat>, b: nat)
    requires CountsAre(s, taken)
    ensures CountsAre(Apply(s, BindLeave(b)), taken)
  {
    forall h | 0 <= h < |s.bindings| ensures CountIs(Apply(s, BindLeave(b)), taken, h) { assert CountIs(s, taken, h); }
  }

  lemma CancelEnterCounts(s: State, taken: Option<nat>)
    requires CountsAre(s, taken)
    ensures CountsAre(Apply(s, CancelEnter), taken)
  {
    forall h | 0 <= h < |s.bindings| ensures CountIs(Apply(s, CancelEnter), taken, h) { assert CountIs(s, taken, h); }
  }

  lemma CancelMarkCounts(s: State, taken: Option<nat>)
    requires CountsAre(s, taken)
    ensures CountsAre(Apply(s, CancelMark), if s.once == Started then s.handle else taken)
  {
    var t := if s.once == Started then s.handle else taken;
    if s.handle.Some? { assert CountIs(s, taken, s.handle.value); }
    forall h | 0 <= h < |s.bindings| ensures CountIs(Apply(s, CancelMark), t, h) { assert CountIs(s, taken, h); }
  }

  lemma CancelLeaveCounts(s: State, taken: Option<nat>)
    requires CountsAre(s, taken)
    ensures CountsAre(Apply(s, CancelLeave), taken)
  {
    forall h | 0 <= h < |s.bindings| ensures CountIs(Apply(s, CancelLeave), taken, h) { assert CountIs(s, taken, h); }
  }

  lemma {:induction false} StepCounts(s: State, taken: Option<nat>, step: Step)
    requires CountsAre(s, taken)
    ensures CountsAre(Apply(s, step), if step == CancelMark && s.once == Started then s.handle else taken)
  {
    hide CountsAre, Apply;
    match step
    case BindEnter(h) => BindEnterCounts(s, taken, h);
    case BindLeave(h) => BindLeaveCounts(s, taken, h);
    case CancelEnter => CancelEnterCounts(s, taken);
    case CancelMark => CancelMarkCounts(s, taken);
    case CancelLeave => CancelLeaveCounts(s, taken);
  }

  lemma {:induction false} RunCounts(n: nat, steps: seq<Step>)
    ensures CountsAre(Run(n, steps), Taken(n, steps))
  {
    if steps != [] {
      RunCounts(n, steps[..|steps| - 1]);
      StepCounts(Run(n, steps[..|steps| - 1]), Taken(n, steps[..|steps| - 1]), steps[|steps| - 1]);
    }
  }

  /** No handle and no context is ever cancelled twice, however the calls interleave. */
  lemma NothingIsCancelledTwice(n: nat, steps: seq<Step>)
    ensures var s := Run(n, steps);
            s.contextCancels <= 1 && forall h :: 0 <= h < n ==> s.handleCancels[h] <= 1
  {
    RunCounts(n, steps);
    var s := Run(n, steps);
    forall h | 0 <= h < n ensures s.handleCancels[h] <= 1 { assert CountIs(s, Taken(n, steps), h); }
  }

  /** Once the cancel and the latest binding have returned, the latest handle has been cancelled exactly once. */
  lemma LatestHandleIsCancelledOnce(n: nat, steps: seq<Step>)
    requires var s := Run(n, steps);
             s.once.Finished? && s.handle.Some? && s.bindings[s.handle.value] == Done
    ensures var s := Run(n, steps);
            s.cancelled && s.contextCancels == 1 && s.handleCancels[s.handle.value] == 1
  {
    RunCounts(n, steps);
    var s := Run(n, steps);
    assert CountIs(s, Taken(n, steps), s.handle.value);
  }

  /** With one binding: when both calls have returned, its handle has been cancelled exactly once. */
  lemma OneBindingOneCancel(steps: seq<Step>)
    requires Run(1, steps).once.Finished? && Run(1, steps).bindings[0] == Done
    ensures Run(1, steps).handleCancels == [1] && Run(1, steps).cancelled
  {
    OnlyHandle(steps);
    LatestHandleIsCancelledOnce(1, steps);
  }

  lemma {:induction false} OnlyHandle(steps: seq<Step>)
    ensures Run(1, steps).handle == if Run(1, steps).bindings[0] == Waiting then None else Some(0)
  {
    if steps != [] { OnlyHandle(steps[..|steps| - 1]); }
  }

  /** The cancelled flag never reverts. */
  lemma {:induction false} CancelledStays(n: nat, steps: seq<Step>, more: seq<Step>)
    requires Run(n, steps).cancelled
    ensures Run(n, steps + more).cancelled
  {
    if more == [] {
      assert steps + more == steps;
    } else {
      var front := more[..|more| - 1];
      CancelledStays(n, steps, front);
      assert (steps + more)[..|steps + more| - 1] == steps + front;
    }
  }

  // ----- The object -----

  lemma RunSnoc(n: nat, steps: seq<Step>, step: Step)
    ensures Run(n, steps + [step]) == Apply(Run(n, steps), step)
  {
    assert (steps + [step])[..|steps|] == steps;
  }

  class Task {
    const n: nat                     // the calls of `bindHandle` there can be
    var cancelled: bool
    var handle: Option<nat>
    var once: Once
    ghost var bindings: seq<Binding>
    ghost var contextCancels: nat
    ghost var handleCancels: seq<nat>
    ghost var history: seq<Step>

    ghost function Snapshot(): State
      reads this
    {
      State(cancelled, handle, bindings, once, contextCancels, handleCancels)
    }

    /** The fields are where the recorded steps have brought them. */
    ghost predicate Valid()
      reads this
    {
      Snapshot() == Run(n, history)
    }

    constructor (n: nat)
      ensures Valid() && this.n == n && history == []
    {
      this.n := n;
      cancelled, handle, once := false, None, Idle;
      bindings, handleCancels := seq(n, _ => Waiting), seq(n, _ => 0);
      contextCancels, history := 0, [];
    }

    /** `bindHandle` under the mutex. The result tells the caller to cancel the handle itself. */
    method BindSection(h: nat) returns (late: bool)
      requires Valid() && h < n && bindings[h] == Waiting
      modifies this
      ensures Valid() && history == old(history) + [BindEnter(h)]
      ensures late == old(cancelled) && bindings == old(bindings)[h := Seen(late)]
      ensures handle == Some(h) && unchanged(this`cancelled, this`once, this`contextCancels, this`handleCancels)
    {
      hide Run;
      RunSnoc(n, history, BindEnter(h));
      handle := Some(h);
      late := cancelled;
      bindings := bindings[h := Seen(late)];
      history := history + [BindEnter(h)];
    }

    /** `handle.Cancel` */
    ghost method CancelOnce(h: nat)
      requires h < |handleCancels|
      modifies this`handleCancels
      ensures handleCancels == old(handleCancels)[h := old(handleCancels[h]) + 1]
    {
      handleCancels := handleCancels[h := handleCancels[h] + 1];
    }

    /** `bindHandle` behind the mutex */
    method BindRest(h: nat, late: bool)
      requires Valid() && h < n && bindings[h] == Seen(late)
      modifies this
      ensures Valid() && history == old(history) + [BindLeave(h)]
      ensures handleCancels == if late then old(handleCancels)[h := old(handleCancels[h]) + 1] else old(handleCancels)
      ensures bindings == old(bindings)[h := Done]
      ensures unchanged(this`cancelled, this`handle, this`once, this`contextCancels)
    {
      hide Run;
      RunSnoc(n, history, BindLeave(h));
      if late {
        CancelOnce(h);
      }
      bindings := bindings[h := Done];
      history := history + [BindLeave(h)];
    }

    /** `bindHandle`, undisturbed: the task takes the handle, which is cancelled at once if the task was. */
    method BindHandle(h: nat)
      requires Valid() && h < n && bindings[h] == Waiting
      modifies this
      ensures Valid() && history == old(history) + [BindEnter(h)] + [BindLeave(h)]
      ensures handle == Some(h) && unchanged(this`cancelled, this`once, this`contextCancels)
      ensures handleCancels == if cancelled then old(handleCancels)[h := old(handleCancels[h]) + 1]
                else old(handleCancels)
    {
      hide Run, Apply;
      var late := BindSection(h);
      BindRest(h, late);
    }

    /** The call that gets into `once`. */
    method EnterOnce() returns (first: bool)
      requires Valid()
      modifies this
      ensures Valid() && history == old(history) + [CancelEnter]
      ensures first == (old(once) == Idle) && once == (if first then Started else old(once))
      ensures unchanged(this`cancelled, this`handle, this`bindings, this`contextCancels, this`handleCancels)
    {
      hide Run;
      RunSnoc(n, history, CancelEnter);
      first := once == Idle;
      if first {
        once := Started;
      }
      history := history + [CancelEnter];
    }

    /** `cancelTask` under the mutex, inside `once`. The result is the handle to cancel. */
    method CancelSection() returns (held: Option<nat>)
      requires Valid() && once == Started
      modifies this
      ensures Valid() && history == old(history) + [CancelMark]
      ensures cancelled && held == old(handle) && once == Holding(held)
      ensures unchanged(this`handle, this`bindings, this`contextCancels, this`handleCancels)
    {
      hide Run;
      RunSnoc(n, history, CancelMark);
      cancelled := true;
      held := handle;
      once := Holding(held);
      history := history + [CancelMark];
    }

    /** `cancelTask` behind the mutex: the context, then the handle. */
    method CancelRest(held: Option<nat>)
      requires Valid() && once == Holding(held)
      modifies this
      ensures Valid() && history == old(history) + [CancelLeave]
      ensures once == Finished && contextCancels == old(contextCancels) + 1
      ensures held.None? ==> handleCancels == old(handleCancels)
      ensures held.Some? ==>
                held.value < n && handleCancels == old(handleCancels)[held.value := old(handleCancels[held.value]) + 1]
      ensures unchanged(this`cancelled, this`handle, this`bindings)
    {
      hide Run;
      RunSnoc(n, history, CancelLeave);
      contextCancels := contextCancels + 1;
      if held.Some? {
        CancelOnce(held.value);
      }
      once := Finished;
      history := history + [CancelLeave];
    }

    /** `cancelTask`, undisturbed: the first call cancels the context and the handle, any other does nothing. */
    method CancelTask()
      requires Valid() && (once == Idle || once == Finished)
      modifies this
      ensures Valid() && once == Finished
      ensures history == old(history) + [CancelEnter] + if old(once) == Idle then [CancelMark] + [CancelLeave] else []
      ensures old(once) == Idle ==> cancelled && contextCancels == old(contextCancels) + 1
      ensures old(once) == Finished ==> unchanged(this`cancelled, this`contextCancels, this`handleCancels)
      ensures unchanged(this`handle, this`bindings)
    {
      hide Run, Apply;
      var first := EnterOnce();
      if !first {
        return;
      }
      var held := CancelSection();
      CancelRest(held);
    }

    /** Of the object, after any calls of its parts: nothing twice, and the latest handle once both have returned. */
    lemma CancelledAtMostOnce()
      requires Valid()
      ensures contextCancels <= 1 && |handleCancels| == n && forall h :: 0 <= h < n ==> handleCancels[h] <= 1
      ensures once == Finished && handle.Some? && handle.value < |bindings| && bindings[handle.value] == Done ==>
                cancelled && contextCancels == 1 && handle.value < n && handleCancels[handle.value] == 1
    {
      NothingIsCancelledTwice(n, history);
      if once == Finished && handle.Some? && handle.value < |bindings| && bindings[handle.value] == Done {
        LatestHandleIsCancelledOnce(n, history);
      }
    }
  }
}
