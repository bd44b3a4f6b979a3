/**
 The idempotent-consumer guard of `internal/framework/idempotent/consume.go`: a key in Redis is absent,
 "being consumed" or "consumed", and the first two operations give it a time to live.

 The class is the store with the three operations. The second half is the set of all runs of any number
 of handlers on any number of keys; times are Redis's own clock, in milliseconds.
 */
module ConsumeGuard {
  import opened Basics

  datatype Status = Consuming | Consumed | Unknown(raw: string)

  /** `expiresAt` is None for a key without a time to live. */
  datatype Entry = Entry(status: Status, expiresAt: Option<int>)

  datatype Begin = Began | ErrConsuming | ErrConsumed | ErrRedis

  type Store = map<string, Entry>

  /** What `GET` answers at time `now`. */
  function Get(store: Store, key: string, now: int): Option<Status> {
    if key in store && (store[key].expiresAt.None? || now < store[key].expiresAt.value) then Some(store[key].status)
    else None
  }

  /** `SET key "0" NX PX ttl` */
  function SetNX(store: Store, key: string, now: int, ttl: int): Store {
    if Get(store, key, now).None? then store[key := Entry(Consuming, Some(now + ttl))] else store
  }

  /** Redis rejects `PX 0` and less, so nothing is set then. */
  function AfterTryBegin(store: Store, key: string, now: int, ttl: int): Store {
    if ttl <= 0 then store else SetNX(store, key, now, ttl)
  }

  /** The answer to the caller, from the old value. */
  function BeginResult(store: Store, key: string, now: int, ttl: int): Begin {
    if ttl <= 0 then ErrRedis
    else
      match Get(store, key, now)
      case None => Began
      case Some(Consuming) => ErrConsuming
      case Some(Consumed) => ErrConsumed
      case Some(Unknown(_)) => Began
  }

  function AfterComplete(store: Store, key: string, now: int, ttl: nat): Store {
    store[key := Entry(Consumed, if ttl == 0 then None else Some(now + ttl))]
  }

  class Guard {
    var store: Store

    constructor ()
      ensures store == map[]
    {
      store := map[];
    }

    method TryBegin(key: string, now: int, ttl: int) returns (r: Begin)
      modifies this
      ensures store == AfterTryBegin(old(store), key, now, ttl) && r == BeginResult(old(store), key, now, ttl)
      ensures r == Began && (forall raw :: Get(old(store), key, now) != Some(Unknown(raw))) ==>
                Get(store, key, now) == Some(Consuming)
      ensures ttl <= 0 ==> r == ErrRedis && store == old(store)
    {
      if ttl <= 0 {
        return ErrRedis;
      }
      var previous := Get(store, key, now);
      if previous.None? {
        store := store[key := Entry(Consuming, Some(now + ttl))];
      }
      match previous
      case None => r := Began;
      case Some(Consuming) => r := ErrConsuming;
      case Some(Consumed) => r := ErrConsumed;
      case Some(Unknown(_)) => r := Began;
    }

    method Complete(key: string, now: int, ttl: nat)
      modifies this
      ensures store == AfterComplete(old(store), key, now, ttl) && Get(store, key, now) == Some(Consumed)
    {
      store := store[key := Entry(Consumed, if ttl == 0 then None else Some(now + ttl))];
    }

    method Fail(key: string)
      modifies this
      ensures store == old(store) - {key}
      ensures forall now :: Get(store, key, now) == None
    {
      store := store - {key};
    }
  }

  // ----- All runs -----

  /** A handler that was admitted and has not ended; its mark runs out at `deadline`. */
  datatype Running = Running(key: string, deadline: int)

  datatype State = State(clock: int, store: Store, running: map<nat, Running>)

  datatype Step =
    | Tick(elapsed: nat)
    | TryBegin(handler: nat, key: string, ttl: int)
    | Complete(handler: nat, window: nat)
    | Fail(handler: nat)

  function Init(clock: int): State {
    State(clock, map[], map[])
  }

  /** A handler ends once, and only if it was admitted. */
  predicate Enabled(s: State, step: Step) {
    match step
    case Tick(_) => true
    case TryBegin(h, _, _) => h !in s.running
    case Complete(h, _) => h in s.running
    case Fail(h) => h in s.running
  }

  predicate Admitted(s: State, step: Step) {
    step.TryBegin? && BeginResult(s.store, step.key, s.clock, step.ttl) == Began
  }

  function Apply(s: State, step: Step): State
    requires Enabled(s, step)
  {
    match step
    case Tick(elapsed) => s.(clock := s.clock + elapsed)
    case TryBegin(h, key, ttl) =>
      State(s.clock, AfterTryBegin(s.store, key, s.clock, ttl),
            if Admitted(s, step) then s.running[h := Running(key, s.clock + ttl)] else s.running)
    case Complete(h, window) =>
      State(s.clock, AfterComplete(s.store, s.running[h].key, s.clock, window), s.running - {h})
    case Fail(h) =>
      State(s.clock, s.store - {s.running[h].key}, s.running - {h})
  }

  predicate Legal(s: State, steps: seq<Step>)
    decreases |steps|
  {
    steps == [] || (Enabled(s, steps[0]) && Legal(Apply(s, steps[0]), steps[1..]))
  }

  function Run(s: State, steps: seq<Step>): State
    requires Legal(s, steps)
    decreases |steps|
  {
    if steps == [] then s else Run(Apply(s, steps[0]), steps[1..])
  }

  // ----- Exclusion -----

  /** `h` is at work on `key`. */
  predicate Handles(s: State, h: nat, key: string) {
    h in s.running && s.running[h].key == key
  }

  /** No handler of `key` is still at work when its mark runs out. */
  ghost predicate OnTime(s: State, key: string, step: Step) {
    step.Tick? ==> forall h :: Handles(s, h, key) ==> s.clock + step.elapsed < s.running[h].deadline
  }

  ghost predicate Punctual(s: State, key: string, steps: seq<Step>)
    requires Legal(s, steps)
    decreases |steps|
  {
    steps == [] || (OnTime(s, key, steps[0]) && Punctual(Apply(s, steps[0]), key, steps[1..]))
  }

  /** At most one handler of `key` is at work, and while it is, nobody would be admitted beside it. */
  ghost predicate Exclusive(s: State, key: string) {
    forall h :: Handles(s, h, key) ==>
      && (forall g :: Handles(s, g, key) ==> g == h)
      && (forall ttl :: BeginResult(s.store, key, s.clock, ttl) != Began)
  }

  /** Exclusive now and after each of the steps. */
  ghost predicate AlwaysExclusive(s: State, key: string, steps: seq<Step>)
    requires Legal(s, steps)
    decreases |steps|
  {
    Exclusive(s, key) && (steps != [] ==> AlwaysExclusive(Apply(s, steps[0]), key, steps[1..]))
  }

  /** The handler of `key` is the only one and holds its mark. */
  ghost predicate Inv(s: State, key: string) {
    forall h :: Handles(s, h, key) ==>
      && s.clock < s.running[h].deadline
      && key in s.store && s.store[key] == Entry(Consuming, Some(s.running[h].deadline))
      && forall g :: Handles(s, g, key) ==> g == h
  }

  lemma BeginKeepsInv(s: State, key: string, h: nat, k: string, ttl: int)
    requires Inv(s, key) && Known(s) && h !in s.running
    ensures Inv(Apply(s, TryBegin(h, k, ttl)), key)
  {
    var t := Apply(s, TryBegin(h, k, ttl));
    if k != key {
      assert forall g :: Handles(t, g, key) ==> Handles(s, g, key);
    } else if Admitted(s, TryBegin(h, k, ttl)) {
      assert forall g :: !Handles(s, g, key);
      assert forall g :: Handles(t, g, key) ==> g == h;
    } else {
      assert t.running == s.running;
    }
  }

  lemma EndKeepsInv(s: State, key: string, h: nat, window: nat)
    requires Inv(s, key) && h in s.running
    ensures Inv(Apply(s, Complete(h, window)), key) && Inv(Apply(s, Fail(h)), key)
  {
    var k := s.running[h].key;
    if k == key {
      assert Handles(s, h, key);
    } else {
      assert forall g :: Handles(s, g, key) ==> g != h;
    }
    assert forall g :: Handles(Apply(s, Fail(h)), g, key) ==> Handles(s, g, key) && g != h;
    assert forall g :: Handles(Apply(s, Complete(h, window)), g, key) ==> Handles(s, g, key) && g != h;
  }

  lemma StepKeepsInv(s: State, key: string, step: Step)
    requires Inv(s, key) && Known(s) && Enabled(s, step) && OnTime(s, key, step)
    ensures Inv(Apply(s, step), key)
  {
    match step
    case Tick(_) => assert forall h :: Handles(Apply(s, step), h, key) ==> Handles(s, h, key);
    case TryBegin(h, k, ttl) => BeginKeepsInv(s, key, h, k, ttl);
    case Complete(h, window) => EndKeepsInv(s, key, h, window);
    case Fail(h) => EndKeepsInv(s, key, h, 0);
  }

  lemma InvIsExclusive(s: State, key: string)
    requires Inv(s, key)
    ensures Exclusive(s, key)
  {
  }

  /** A tick past the deadline of a handler that holds its mark: the mark is gone, the handler is not. */
  lemma LateTickIsNotExclusive(s: State, key: string, step: Step)
    requires Inv(s, key) && Enabled(s, step) && !OnTime(s, key, step)
    ensures !Exclusive(Apply(s, step), key)
  {
    var h :| Handles(s, h, key) && s.clock + step.elapsed >= s.running[h].deadline;
    var t := Apply(s, step);
    assert Handles(t, h, key) && BeginResult(t.store, key, t.clock, 1) == Began;
  }

  lemma {:induction false} ExclusiveIffPunctualFrom(s: State, key: string, steps: seq<Step>)
    requires Inv(s, key) && Known(s) && Legal(s, steps)
    ensures AlwaysExclusive(s, key, steps) <==> Punctual(s, key, steps)
    ensures Punctual(s, key, steps) ==> Inv(Run(s, steps), key)
    decreases |steps|
  {
    hide Exclusive, Inv, OnTime, Known, Apply;
    InvIsExclusive(s, key);
    if steps != [] {
      KnownStep(s, steps[0]);
      if OnTime(s, key, steps[0]) {
        StepKeepsInv(s, key, steps[0]);
        ExclusiveIffPunctualFrom(Apply(s, steps[0]), key, steps[1..]);
      } else {
        LateTickIsNotExclusive(s, key, steps[0]);
      }
    }
  }

  /**
   The promise of the guard, exactly: all along a run at most one handler of a key is at work and nobody
   would be admitted beside it, if and only if the handlers of that key end before their time to live.
   */
  lemma ExclusiveIffPunctual(clock: int, steps: seq<Step>, key: string)
    requires Legal(Init(clock), steps)
    ensures AlwaysExclusive(Init(clock), key, steps) <==> Punctual(Init(clock), key, steps)
  {
    ExclusiveIffPunctualFrom(Init(clock), key, steps);
  }

  /** If the handlers of a key end before their time to live, no two of them are ever at work together. */
  lemma HandlersNeverOverlap(clock: int, steps: seq<Step>, key: string, g: nat, h: nat)
    requires Legal(Init(clock), steps) && Punctual(Init(clock), key, steps)
    requires Handles(Run(Init(clock), steps), g, key) && Handles(Run(Init(clock), steps), h, key)
    ensures g == h
  {
    ExclusiveIffPunctualFrom(Init(clock), key, steps);
  }

  /**
   After the first late tick a second handler is admitted beside the late one. When the late one then
   fails, it removes the mark of the second, and a third is admitted beside that.
   */
  lemma {:induction false} OverrunningHandlerFreesAnother(clock: int, steps: seq<Step>, key: string, late: nat,
                                                          elapsed: nat, second: nat, third: nat, ttl: int)
    requires Legal(Init(clock), steps) && Punctual(Init(clock), key, steps) && ttl > 0
    requires var s := Run(Init(clock), steps);
             Handles(s, late, key) && s.clock + elapsed >= s.running[late].deadline &&
             second !in s.running && third !in s.running && second != third
    ensures var s := Apply(Run(Init(clock), steps), Tick(elapsed));
            var t := Apply(s, TryBegin(second, key, ttl));
            var u := Apply(Apply(t, Fail(late)), TryBegin(third, key, ttl));
            && Handles(t, late, key) && Handles(t, second, key)
            && Handles(u, second, key) && Handles(u, third, key) && u.clock < u.running[second].deadline
  {
    ExclusiveIffPunctualFrom(Init(clock), key, steps);
    hide Run, Punctual, AlwaysExclusive;
    var s := Apply(Run(Init(clock), steps), Tick(elapsed));
    assert Handles(s, late, key) && Get(s.store, key, s.clock).None?;
    var t := Apply(s, TryBegin(second, key, ttl));
    assert key !in Apply(t, Fail(late)).store;
  }

  // ----- Values -----

  /** Every stored value is one of the two that the guard writes. */
  ghost predicate Known(s: State) {
    forall key :: key in s.store ==> !s.store[key].status.Unknown?
  }

  lemma KnownStep(s: State, step: Step)
    requires Known(s) && Enabled(s, step)
    ensures Known(Apply(s, step))
  {
  }

  lemma {:induction false} KnownRun(s: State, steps: seq<Step>)
    requires Known(s) && Legal(s, steps)
    ensures Known(Run(s, steps))
    decreases |steps|
  {
    hide Known;
    if steps != [] {
      KnownStep(s, steps[0]);
      KnownRun(Apply(s, steps[0]), steps[1..]);
    }
  }

  /** The branch of `TryBegin` for a value that is neither "0" nor "1" is never taken, late handlers or not. */
  lemma UnknownValueIsUnreachable(clock: int, steps: seq<Step>, key: string)
    requires Legal(Init(clock), steps)
    ensures var s := Run(Init(clock), steps); var v := Get(s.store, key, s.clock); v.Some? ==> !v.value.Unknown?
  {
    KnownRun(Init(clock), steps);
  }

  // ----- Complete and Fail -----

  /** `h` is the only handler at work on its key. */
  ghost predicate Alone(s: State, h: nat) {
    h in s.running && forall g :: Handles(s, g, s.running[h].key) ==> g == h
  }

  predicate Before(s: State, until: Option<int>) {
    until.None? || s.clock < until.value
  }

  /** Every attempt at `key` in this run is turned away. */
  ghost predicate NoneAdmitted(s: State, key: string, steps: seq<Step>)
    requires Legal(s, steps)
    decreases |steps|
  {
    steps != [] ==>
      && (steps[0].TryBegin? && steps[0].key == key ==>
            BeginResult(s.store, key, s.clock, steps[0].ttl) in {ErrConsumed, ErrRedis})
      && NoneAdmitted(Apply(s, steps[0]), key, steps[1..])
  }

  lemma {:induction false} TicksOnlyForward(s: State, steps: seq<Step>)
    requires Legal(s, steps)
    ensures s.clock <= Run(s, steps).clock
    decreases |steps|
  {
    if steps != [] { TicksOnlyForward(Apply(s, steps[0]), steps[1..]); }
  }

  /** `key` is marked consumed until `until` (for ever if None), and nobody is handling it. */
  ghost predicate Done(s: State, key: string, until: Option<int>) {
    && key in s.store && s.store[key] == Entry(Consumed, until)
    && forall h :: !Handles(s, h, key)
  }

  lemma DoneStep(s: State, key: string, until: Option<int>, step: Step)
    requires Done(s, key, until) && Before(s, until) && Enabled(s, step)
    ensures Done(Apply(s, step), key, until)
    ensures step.TryBegin? && step.key == key ==>
              BeginResult(s.store, key, s.clock, step.ttl) in {ErrConsumed, ErrRedis}
  {
    if step.Complete? || step.Fail? { assert !Handles(s, step.handler, key); }
    if step.TryBegin? && step.key == key { assert !Admitted(s, step); }
    assert forall h :: Handles(Apply(s, step), h, key) ==> Handles(s, h, key);
  }

  lemma {:induction false} DoneStays(s: State, key: string, until: Option<int>, steps: seq<Step>)
    requires Legal(s, steps) && Done(s, key, until) && Before(Run(s, steps), until)
    ensures NoneAdmitted(s, key, steps)
    decreases |steps|
  {
    hide Done, BeginResult, Apply;
    if steps != [] {
      TicksOnlyForward(s, steps);
      DoneStep(s, key, until, steps[0]);
      DoneStays(Apply(s, steps[0]), key, until, steps[1..]);
    }
  }

  function Window(s: State, ttl: nat): Option<int> {
    if ttl == 0 then None else Some(s.clock + ttl)
  }

  /** However a run goes on after `Complete`, nobody is admitted to the key for the whole of its time to live. */
  ghost predicate NeverRepeated(s: State, h: nat, ttl: nat)
    requires h in s.running
  {
    forall more ::
      Legal(Apply(s, Complete(h, ttl)), more) && Before(Run(Apply(s, Complete(h, ttl)), more), Window(s, ttl)) ==>
        NoneAdmitted(Apply(s, Complete(h, ttl)), s.running[h].key, more)
  }

  /** Complete keeps its promise exactly if no other handler of the key is at work. */
  lemma CompletedIsNotRepeatedIff(s: State, h: nat, ttl: nat)
    requires h in s.running
    ensures NeverRepeated(s, h, ttl) <==> Alone(s, h)
  {
    var key, t := s.running[h].key, Apply(s, Complete(h, ttl));
    if Alone(s, h) {
      assert forall g :: Handles(t, g, key) ==> Handles(s, g, key) && g != h;
      forall more | Legal(t, more) && Before(Run(t, more), Window(s, ttl)) ensures NoneAdmitted(t, key, more) {
        DoneStays(t, key, Window(s, ttl), more);
      }
    } else {
      var g :| Handles(s, g, key) && g != h;
      OtherFails(s, h, ttl, g);
    }
  }

  /** Another handler of the key that fails removes the mark of the one that completed. */
  lemma OtherFails(s: State, h: nat, ttl: nat, g: nat)
    requires h in s.running && Handles(s, g, s.running[h].key) && g != h
    ensures !NeverRepeated(s, h, ttl)
  {
    var key, t := s.running[h].key, Apply(s, Complete(h, ttl));
    var steps := [Fail(g), TryBegin(h, key, 1)];
    var u := Apply(t, steps[0]);
    assert steps[1..] == [TryBegin(h, key, 1)] && steps[1..][1..] == [];
    assert BeginResult(u.store, key, u.clock, 1) == Began;
    OneStep(u, steps[1]);
    assert !NoneAdmitted(u, key, steps[1..]);
    assert Legal(t, steps) && Run(t, steps).clock == s.clock && !NoneAdmitted(t, key, steps);
  }

  lemma OneStep(s: State, step: Step)
    requires Enabled(s, step)
    ensures Legal(s, [step]) && Run(s, [step]) == Apply(s, step)
  {
    assert [step][1..] == [];
  }

  /** Nobody tries `key` in these steps. */
  predicate Untouched(key: string, steps: seq<Step>) {
    forall i :: 0 <= i < |steps| ==> !(steps[i].TryBegin? && steps[i].key == key)
  }

  ghost predicate Free(s: State, key: string) {
    key !in s.store && forall h :: !Handles(s, h, key)
  }

  lemma FreeStep(s: State, key: string, step: Step)
    requires Free(s, key) && Enabled(s, step) && !(step.TryBegin? && step.key == key)
    ensures Free(Apply(s, step), key)
  {
    if step.Complete? || step.Fail? { assert !Handles(s, step.handler, key); }
    assert forall h :: Handles(Apply(s, step), h, key) ==> Handles(s, h, key);
  }

  lemma {:induction false} FreeStays(s: State, key: string, steps: seq<Step>)
    requires Legal(s, steps) && Untouched(key, steps) && Free(s, key)
    ensures Free(Run(s, steps), key)
    decreases |steps|
  {
    hide Free, Apply;
    if steps != [] {
      assert Untouched(key, steps[1..]);
      FreeStep(s, key, steps[0]);
      FreeStays(Apply(s, steps[0]), key, steps[1..]);
    }
  }

  /** However a run goes on after `Fail`, the next attempt at the key is admitted. */
  ghost predicate AlwaysRetried(s: State, h: nat)
    requires h in s.running
  {
    forall more, retry ::
      Legal(Apply(s, Fail(h)), more) && Untouched(s.running[h].key, more) && IsAttempt(retry, s.running[h].key) ==>
        Admitted(Run(Apply(s, Fail(h)), more), retry)
  }

  predicate IsAttempt(step: Step, key: string) {
    step.TryBegin? && step.key == key && step.ttl > 0
  }

  /** Fail keeps its promise exactly if no other handler of the key is at work. */
  lemma FailedIsRetriedIff(s: State, h: nat)
    requires h in s.running
    ensures AlwaysRetried(s, h) <==> Alone(s, h)
  {
    var key, t := s.running[h].key, Apply(s, Fail(h));
    if Alone(s, h) {
      assert forall g :: Handles(t, g, key) ==> Handles(s, g, key) && g != h;
      forall more, retry | Legal(t, more) && Untouched(key, more) && IsAttempt(retry, key)
        ensures Admitted(Run(t, more), retry) {
        FreeStays(t, key, more);
      }
    } else {
      var g :| Handles(s, g, key) && g != h;
      OtherCompletes(s, h, g);
    }
  }

  lemma OtherCompletes(s: State, h: nat, g: nat)
    requires h in s.running && Handles(s, g, s.running[h].key) && g != h
    ensures !AlwaysRetried(s, h)
  {
    var key, t := s.running[h].key, Apply(s, Fail(h));
    var steps, retry := [Complete(g, 0)], TryBegin(h, key, 1);
    OneStep(t, steps[0]);
    var u := Apply(t, steps[0]);
    assert u.store[key] == Entry(Consumed, None);
    assert Legal(t, steps) && IsAttempt(retry, key) && !Admitted(Run(t, steps), retry);
  }

  /** In a run whose handlers of the key are punctual, each of them is alone, so both promises are kept. */
  lemma PunctualHandlersAreAlone(clock: int, steps: seq<Step>, key: string, h: nat)
    requires Legal(Init(clock), steps) && Punctual(Init(clock), key, steps) && Handles(Run(Init(clock), steps), h, key)
    ensures Alone(Run(Init(clock), steps), h)
  {
    ExclusiveIffPunctualFrom(Init(clock), key, steps);
  }

  /** The mark left by a handler that never ends keeps others out for its time to live, and no longer. */
  lemma MarkExpires(s: State, key: string, ttl: int, elapsed: nat)
    requires ttl > 0 && Get(s.store, key, s.clock).None?
    ensures var t := AfterTryBegin(s.store, key, s.clock, ttl);
            BeginResult(t, key, s.clock + elapsed, ttl) == (if elapsed < ttl then ErrConsuming else Began)
  {
  }
}
