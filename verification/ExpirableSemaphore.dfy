/**
 The leased, cross-process semaphore of `internal/framework/ratelimit/expirable_semaphore.go`: the sorted set in
 Redis as a class, then all runs of any number of clients. A client reads its own clock before its script runs, so
 the time it passes may be old or, if its clock is wrong, ahead. Times are milliseconds, leases nanoseconds.
 */
module ExpirableSemaphore {
  import opened Basics

  const NANOSECONDS_IN_A_MILLISECOND := 1_000_000

  /** `ZREMRANGEBYSCORE key -inf now` */
  function Purge(permits: map<string, int>, now: int): map<string, int> {
    map token | token in permits && permits[token] > now :: permits[token]
  }

  predicate Admits(permits: map<string, int>, now: int, max: int) {
    |Purge(permits, now)| < max
  }

  /** `time.Duration.Milliseconds` of a positive lease. */
  function LeaseMillis(lease: int): int {
    lease / NANOSECONDS_IN_A_MILLISECOND
  }

  function AfterAcquire(permits: map<string, int>, now: int, lease: int, max: int, token: string): map<string, int> {
    if Admits(permits, now, max) then Purge(permits, now)[token := now + LeaseMillis(lease)] else Purge(permits, now)
  }

  datatype Outcome = Granted(token: string) | Refused | NoPermits | NoLease

  class Semaphore {
    const max: int
    var permits: map<string, int>

    constructor (max: int)
      ensures this.max == max && permits == map[]
    {
      this.max := max;
      permits := map[];
    }

    /** One attempt of `Acquire`: its argument checks and one run of the script. */
    method TryAcquire(now: int, lease: int, token: string) returns (outcome: Outcome)
      modifies this
      ensures max <= 0 ==> outcome == NoPermits && permits == old(permits)
      ensures max > 0 && lease <= 0 ==> outcome == NoLease && permits == old(permits)
      ensures max > 0 && lease > 0 ==>
                && permits == AfterAcquire(old(permits), now, lease, max, token)
                && outcome == if Admits(old(permits), now, max) then Granted(token) else Refused
    {
      if max <= 0 {
        return NoPermits;
      }
      if lease <= 0 {
        return NoLease;
      }
      permits := Purge(permits, now);
      if |permits| < max {
        permits := permits[token := now + LeaseMillis(lease)];
        return Granted(token);
      }
      return Refused;
    }

    /** `ZREM`, which does nothing to a token that is not there. */
    method Release(token: string)
      modifies this
      ensures permits == if token == "" then old(permits) else old(permits) - {token}
    {
      if token == "" {
        return;
      }
      permits := permits - {token};
    }
  }

  // ----- All runs -----

  /** `granted` remembers when each lease that was ever granted ends; `released` which were given back. */
  datatype State = State(max: int, clock: int, permits: map<string, int>, granted: map<string, int>,
                         released: set<string>)

  datatype Step =
    | Tick(elapsed: nat)
    | Acquire(token: string, now: int, lease: int)
    | Release(token: string)

  function Init(max: int, clock: int): State {
    State(max, clock, map[], map[], {})
  }

  /** Tokens are never used twice for a lease. A client passes whatever its clock shows. */
  predicate Allowed(s: State, step: Step) {
    step.Acquire? ==> step.token != "" && step.token !in s.granted && step.lease > 0 && s.max > 0
  }

  function Apply(s: State, step: Step): State {
    match step
    case Tick(elapsed) => s.(clock := s.clock + elapsed)
    case Acquire(token, now, lease) =>
      s.(permits := AfterAcquire(s.permits, now, lease, s.max, token),
         granted := if Admits(s.permits, now, s.max) then s.granted[token := now + LeaseMillis(lease)] else s.granted)
    case Release(token) =>
      s.(permits := s.permits - {token}, released := if token in s.granted then s.released + {token} else s.released)
  }

  predicate Legal(s: State, steps: seq<Step>)
    decreases |steps|
  {
    steps == [] || (Allowed(s, steps[0]) && Legal(Apply(s, steps[0]), steps[1..]))
  }

  function Run(s: State, steps: seq<Step>): State
    requires Legal(s, steps)
    decreases |steps|
  {
    if steps == [] then s else Run(Apply(s, steps[0]), steps[1..])
  }

  /** `s` is the state after some run. */
  ghost predicate Reachable(s: State, max: int, clock: int) {
    exists steps :: Legal(Init(max, clock), steps) && s == Run(Init(max, clock), steps)
  }

  /** The leases in force: granted, not given back, not run out. */
  function Live(s: State): set<string> {
    set token | token in s.granted && token !in s.released && s.granted[token] > s.clock
  }

  /** What holds whatever the clients' clocks show: permits are leases that were granted and not given back. */
  ghost predicate Inv(s: State) {
    && (s.max >= 0 ==> |s.permits| <= s.max)
    && (s.max <= 0 ==> s.granted == map[])
    && (forall t :: t in s.permits ==> t in s.granted && t !in s.released && s.permits[t] == s.granted[t])
    && s.released <= s.granted.Keys
  }

  lemma PurgeKeeps(permits: map<string, int>, now: int)
    ensures Purge(permits, now).Keys <= permits.Keys
    ensures |Purge(permits, now)| <= |permits|
    ensures forall t :: t in Purge(permits, now) <==> t in permits && permits[t] > now
  {
    SubsetIsNoLarger(Purge(permits, now).Keys, permits.Keys);
    assert |Purge(permits, now).Keys| == |Purge(permits, now)| && |permits.Keys| == |permits|;
  }

  lemma InsertGrows(m: map<string, int>, k: string, v: int)
    ensures |m[k := v]| <= |m| + 1
  {
    assert m[k := v].Keys == m.Keys + {k};
    assert |m[k := v].Keys| <= |m.Keys| + 1;
  }

  lemma RemoveShrinks(m: map<string, int>, k: string)
    ensures |m - {k}| <= |m|
  {
    SubsetIsNoLarger((m - {k}).Keys, m.Keys);
    assert |(m - {k}).Keys| == |m - {k}| && |m.Keys| == |m|;
  }

  lemma {:induction false} TickKeepsInv(s: State, elapsed: nat)
    requires Inv(s)
    ensures Inv(Apply(s, Tick(elapsed)))
  {
    hide Admits, AfterAcquire, Purge;
  }

  lemma {:induction false} AcquireKeepsInv(s: State, token: string, now: int, lease: int)
    requires Inv(s) && Allowed(s, Acquire(token, now, lease))
    ensures Inv(Apply(s, Acquire(token, now, lease)))
  {
    PurgeKeeps(s.permits, now);
    InsertGrows(Purge(s.permits, now), token, now + LeaseMillis(lease));
    hide LeaseMillis;
  }

  lemma {:induction false} ReleaseKeepsInv(s: State, token: string)
    requires Inv(s)
    ensures Inv(Apply(s, Release(token)))
  {
    hide Admits, AfterAcquire, Purge;
    RemoveShrinks(s.permits, token);
  }

  lemma {:induction false} StepKeepsInv(s: State, step: Step)
    requires Inv(s) && Allowed(s, step)
    ensures Inv(Apply(s, step))
  {
    hide Inv, Admits, AfterAcquire, Purge;
    match step
    case Tick(elapsed) => TickKeepsInv(s, elapsed);
    case Acquire(token, now, lease) => AcquireKeepsInv(s, token, now, lease);
    case Release(token) => ReleaseKeepsInv(s, token);
  }

  lemma {:induction false} RunKeepsInv(s: State, steps: seq<Step>)
    requires Inv(s) && Legal(s, steps)
    ensures Inv(Run(s, steps)) && Run(s, steps).max == s.max
    decreases |steps|
  {
    if steps != [] {
      StepKeepsInv(s, steps[0]);
      RunKeepsInv(Apply(s, steps[0]), steps[1..]);
    }
  }

  lemma ReachableKeepsInv(s: State, max: int, clock: int)
    requires max >= 0 && Reachable(s, max, clock)
    ensures Inv(s) && s.max == max
  {
    var steps :| Legal(Init(max, clock), steps) && s == Run(Init(max, clock), steps);
    RunKeepsInv(Init(max, clock), steps);
  }

  // ----- Which runs keep the bound -----

  /** Every lease in force still has its permit. */
  ghost predicate Covered(s: State) {
    forall t :: t in Live(s) ==> t in s.permits
  }

  /** A client whose clock shows `now` takes a lease in force for one that has run out. */
  ghost predicate TakenForOver(s: State, now: int) {
    exists t :: t in Live(s) && s.granted[t] <= now
  }

  /** The client's clock is not past the end of a lease in force. A clock that is not ahead never is. */
  ghost predicate Careful(s: State, step: Step) {
    step.Acquire? ==> !TakenForOver(s, step.now)
  }

  ghost predicate CarefulRun(s: State, steps: seq<Step>)
    requires Legal(s, steps)
    decreases |steps|
  {
    steps == [] || (Careful(s, steps[0]) && CarefulRun(Apply(s, steps[0]), steps[1..]))
  }

  /** Covered now and after each of the steps. */
  ghost predicate AlwaysCovered(s: State, steps: seq<Step>)
    requires Legal(s, steps)
    decreases |steps|
  {
    Covered(s) && (steps != [] ==> AlwaysCovered(Apply(s, steps[0]), steps[1..]))
  }

  /** No client's clock is ahead in these steps. */
  predicate Honest(s: State, steps: seq<Step>)
    requires Legal(s, steps)
    decreases |steps|
  {
    steps == [] || ((steps[0].Acquire? ==> steps[0].now <= s.clock) && Honest(Apply(s, steps[0]), steps[1..]))
  }

  /** A script purges the permit of a lease in force exactly if its client takes it for over. */
  lemma {:induction false} AcquireCovers(s: State, token: string, now: int, lease: int)
    requires Inv(s) && Covered(s) && Allowed(s, Acquire(token, now, lease))
    ensures Covered(Apply(s, Acquire(token, now, lease))) <==> !TakenForOver(s, now)
  {
    hide Admits, LeaseMillis;
    var r := Apply(s, Acquire(token, now, lease));
    if TakenForOver(s, now) {
      var t :| t in Live(s) && s.granted[t] <= now;
      assert t in Live(r) && t !in r.permits;
    } else {
      forall t | t in Live(r) ensures t in r.permits { assert t == token || t in Live(s); }
    }
  }

  lemma StepCovers(s: State, step: Step)
    requires Inv(s) && Covered(s) && Allowed(s, step)
    ensures Covered(Apply(s, step)) <==> Careful(s, step)
  {
    if step.Acquire? {
      AcquireCovers(s, step.token, step.now, step.lease);
    } else {
      assert forall t :: t in Live(Apply(s, step)) ==> t in Live(s);
    }
  }

  lemma {:induction false} CoveredIffCarefulFrom(s: State, steps: seq<Step>)
    requires Inv(s) && Covered(s) && Legal(s, steps)
    ensures AlwaysCovered(s, steps) <==> CarefulRun(s, steps)
    ensures CarefulRun(s, steps) ==> Covered(Run(s, steps))
    decreases |steps|
  {
    hide Inv, Covered, Careful, Apply;
    if steps != [] {
      StepCovers(s, steps[0]);
      if Careful(s, steps[0]) {
        StepKeepsInv(s, steps[0]);
        CoveredIffCarefulFrom(Apply(s, steps[0]), steps[1..]);
      } else {
        NotCoveredNow(Apply(s, steps[0]), steps[1..]);
      }
    }
  }

  lemma NotCoveredNow(s: State, steps: seq<Step>)
    requires Legal(s, steps) && !Covered(s)
    ensures !AlwaysCovered(s, steps)
  {
  }

  /**
   All runs, whatever the clients' clocks show: every lease in force has its permit all along the run if
   and only if no client's clock is past the end of a lease in force when it runs the script.
   */
  lemma AlwaysCoveredIff(max: int, clock: int, steps: seq<Step>)
    requires max >= 0 && Legal(Init(max, clock), steps)
    ensures AlwaysCovered(Init(max, clock), steps) <==> CarefulRun(Init(max, clock), steps)
  {
    CoveredIffCarefulFrom(Init(max, clock), steps);
  }

  lemma {:induction false} HonestIsCareful(s: State, steps: seq<Step>)
    requires Legal(s, steps) && Honest(s, steps)
    ensures CarefulRun(s, steps)
    decreases |steps|
  {
    hide Apply;
    if steps != [] { HonestIsCareful(Apply(s, steps[0]), steps[1..]); }
  }

  lemma CoveredIsBounded(s: State)
    requires Inv(s) && Covered(s) && s.max >= 0
    ensures |Live(s)| <= s.max
  {
    SubsetIsNoLarger(Live(s), s.permits.Keys);
    assert |s.permits.Keys| == |s.permits|;
  }

  /**
   Safety: however the clients interleave, no more than `max` leases are in force, and each has its permit,
   as long as no client's clock is past the end of a lease in force; so with clocks that are not ahead.
   */
  lemma {:induction false} LiveNeverExceedsMax(max: int, clock: int, steps: seq<Step>)
    requires max >= 0 && Legal(Init(max, clock), steps)
    ensures Honest(Init(max, clock), steps) ==> CarefulRun(Init(max, clock), steps)
    ensures CarefulRun(Init(max, clock), steps) ==>
              var s := Run(Init(max, clock), steps); |Live(s)| <= max && Covered(s)
  {
    hide Inv, Covered, CarefulRun;
    if Honest(Init(max, clock), steps) { HonestIsCareful(Init(max, clock), steps); }
    InitIsCovered(max, clock);
    CoveredIffCarefulFrom(Init(max, clock), steps);
    RunKeepsInv(Init(max, clock), steps);
    if CarefulRun(Init(max, clock), steps) { CoveredIsBounded(Run(Init(max, clock), steps)); }
  }

  lemma InitIsCovered(max: int, clock: int)
    ensures Inv(Init(max, clock)) && Covered(Init(max, clock))
  {
  }

  // ----- What an uncovered lease leads to -----

  lemma {:induction false} FreshToken(used: set<string>) returns (token: string)
    ensures token != "" && forall u :: u in used ==> |u| < |token|
    decreases |used|
  {
    if used == {} {
      token := "t";
    } else {
      var u :| u in used;
      token := FreshToken(used - {u});
      if |u| >= |token| { token := u + "t"; }
    }
  }

  lemma OpenPermitsAreLive(s: State)
    requires Inv(s)
    ensures Purge(s.permits, s.clock).Keys <= Live(s)
    ensures |Purge(s.permits, s.clock).Keys| == |Purge(s.permits, s.clock)|
  {
  }

  /** One more lease of an honest client, for a second. */
  lemma OneMoreLease(s: State, token: string)
    requires Inv(s) && !Covered(s) && token != "" && token !in s.granted && s.max > 0
    requires |Purge(s.permits, s.clock)| < s.max
    ensures var step := Acquire(token, s.clock, 1000 * NANOSECONDS_IN_A_MILLISECOND);
            && Allowed(s, step) && !Covered(Apply(s, step)) && Apply(s, step).max == s.max
            && |Purge(Apply(s, step).permits, s.clock)| == |Purge(s.permits, s.clock)| + 1
  {
    var r := Apply(s, Acquire(token, s.clock, 1000 * NANOSECONDS_IN_A_MILLISECOND));
    var t :| t in Live(s) && t !in s.permits;
    assert t in Live(r) && t !in r.permits;
    var before, after := Purge(s.permits, s.clock), Purge(r.permits, s.clock);
    assert token !in before;
    assert after.Keys == before.Keys + {token};
    assert |after.Keys| == |after| && |before.Keys| == |before|;
  }

  /** Honest clients fill what the script takes for free, and the uncovered lease is in force beside them. */
  lemma {:induction false} UncoveredOverfills(s: State) returns (more: seq<Step>)
    requires Inv(s) && !Covered(s) && s.max > 0
    ensures Legal(s, more) && Honest(s, more) && |Live(Run(s, more))| > s.max
    decreases s.max - |Purge(s.permits, s.clock)|
  {
    PurgeKeeps(s.permits, s.clock);
    if |Purge(s.permits, s.clock)| < s.max {
      var token := FreshToken(s.granted.Keys);
      assert token !in s.granted;
      var step := Acquire(token, s.clock, 1000 * NANOSECONDS_IN_A_MILLISECOND);
      OneMoreLease(s, token);
      StepKeepsInv(s, step);
      hide Inv, Covered, Purge, Live, Admits, AfterAcquire;
      var rest := UncoveredOverfills(Apply(s, step));
      more := [step] + rest;
      assert more[1..] == rest;
    } else {
      more := [];
      OpenPermitsAreLive(s);
      var t :| t in Live(s) && t !in s.permits;
      SubsetIsNoLarger(Purge(s.permits, s.clock).Keys + {t}, Live(s));
    }
  }

  /** However honest clients go on, no more than `max` leases are in force. */
  ghost predicate StaysBounded(s: State) {
    forall more :: Legal(s, more) && Honest(s, more) ==> |Live(Run(s, more))| <= s.max
  }

  lemma {:induction false} BoundedIffCovered(s: State)
    requires Inv(s) && s.max > 0
    ensures StaysBounded(s) <==> Covered(s)
  {
    hide Inv, Covered, Live, Honest;
    if Covered(s) {
      forall more | Legal(s, more) && Honest(s, more) ensures |Live(Run(s, more))| <= s.max {
        HonestIsCareful(s, more);
        CoveredIffCarefulFrom(s, more);
        RunKeepsInv(s, more);
        CoveredIsBounded(Run(s, more));
      }
    } else {
      var more := UncoveredOverfills(s);
    }
  }

  /** What a covered state is worth, in any run: exactly then, clients whose clocks are not ahead keep it bounded. */
  lemma StaysBoundedIff(s: State, max: int, clock: int)
    requires max > 0 && Reachable(s, max, clock)
    ensures StaysBounded(s) <==> Covered(s)
  {
    ReachableKeepsInv(s, max, clock);
    BoundedIffCovered(s);
  }

  /**
   What one client can do to the bound, on a semaphore that need not be full: honest clients keep it after
   the acquire exactly if this client's clock is not past the end of a lease in force.
   */
  lemma {:induction false} AcquireKeepsBoundIff(s: State, max: int, clock: int, token: string, now: int, lease: int)
    requires max >= 0 && Reachable(s, max, clock) && Covered(s) && Allowed(s, Acquire(token, now, lease))
    ensures StaysBounded(Apply(s, Acquire(token, now, lease))) <==> !TakenForOver(s, now)
  {
    ReachableKeepsInv(s, max, clock);
    StepKeepsInv(s, Acquire(token, now, lease));
    AcquireCovers(s, token, now, lease);
    hide Inv, Covered, StaysBounded, Admits, AfterAcquire, TakenForOver;
    BoundedIffCovered(Apply(s, Acquire(token, now, lease)));
  }

  // ----- One script run -----

  /** With an up-to-date clock reading the script admits a client exactly when a lease is free. */
  lemma AdmitsIffLeaseFree(s: State, max: int, clock: int)
    requires max >= 0 && Reachable(s, max, clock) && Covered(s)
    ensures Admits(s.permits, s.clock, s.max) <==> |Live(s)| < max
  {
    ReachableKeepsInv(s, max, clock);
    assert Purge(s.permits, s.clock).Keys == Live(s);
    assert |Purge(s.permits, s.clock).Keys| == |Purge(s.permits, s.clock)|;
  }

  /** With an old reading it may refuse although one is free; it never admits one too many. */
  lemma OldReadingNeverOveradmits(s: State, max: int, clock: int, now: int)
    requires max >= 0 && Reachable(s, max, clock) && Covered(s) && now <= s.clock
    ensures Admits(s.permits, now, s.max) ==> |Live(s)| < max
  {
    ReachableKeepsInv(s, max, clock);
    PurgeKeeps(s.permits, now);
    SubsetIsNoLarger(Live(s), Purge(s.permits, now).Keys);
    assert |Purge(s.permits, now).Keys| == |Purge(s.permits, now)|;
  }

  /** In any run: an acquire ends no other lease; a release ends the one it names and nothing else. */
  lemma OthersKeepTheirLease(s: State, max: int, clock: int, step: Step)
    requires max >= 0 && Reachable(s, max, clock) && Allowed(s, step)
    ensures step.Acquire? ==> Live(s) <= Live(Apply(s, step)) <= Live(s) + {step.token}
    ensures step.Acquire? && Admits(s.permits, step.now, s.max) && step.now + LeaseMillis(step.lease) > s.clock ==>
              Live(Apply(s, step)) == Live(s) + {step.token}
    ensures step.Release? ==> Live(Apply(s, step)) == Live(s) - {step.token}
  {
    ReachableKeepsInv(s, max, clock);
  }

  /**
   How long a lease that is not given back lasts, for a client with the right time: of its nanoseconds, the whole
   milliseconds, and the permit as long as the lease.
   */
  lemma LeaseLasts(s: State, max: int, clock: int, token: string, lease: int, elapsed: nat)
    requires max >= 0 && Reachable(s, max, clock) && Allowed(s, Acquire(token, s.clock, lease))
    requires Admits(s.permits, s.clock, s.max)
    ensures var r := Apply(Apply(s, Acquire(token, s.clock, lease)), Tick(elapsed));
            && (token in Live(r) <==> (elapsed + 1) * 1_000_000 <= lease)
            && (token in Purge(r.permits, r.clock) <==> token in Live(r))
  {
    ReachableKeepsInv(s, max, clock);
  }

  /** Giving back a lease that has run out frees nobody's permit, whoever took its place. */
  lemma LateReleaseIsHarmless(s: State, max: int, clock: int, token: string)
    requires max >= 0 && Reachable(s, max, clock) && token !in Live(s)
    ensures Live(Apply(s, Release(token))) == Live(s)
  {
    OthersKeepTheirLease(s, max, clock, Release(token));
  }

  /** When all permits are in use, the script admits a client exactly if its clock is past the end of one of them. */
  lemma FullAdmitsIff(s: State, max: int, clock: int, now: int)
    requires max >= 0 && Reachable(s, max, clock) && Covered(s) && |Live(s)| == max
    ensures Admits(s.permits, now, s.max) <==> TakenForOver(s, now)
  {
    ReachableKeepsInv(s, max, clock);
    PurgeKeeps(s.permits, now);
    var left := Purge(s.permits, now).Keys;
    assert |left| == |Purge(s.permits, now)| && |s.permits.Keys| == |s.permits|;
    SubsetOfSameSize(Live(s), s.permits.Keys);
    if TakenForOver(s, now) {
      var t :| t in Live(s) && s.granted[t] <= now;
      SubsetIsNoLarger(left, Live(s) - {t});
    } else {
      assert left == Live(s);
    }
  }

  /** What a clock that is ahead does at once to a full semaphore: one lease too many, exactly then. */
  lemma {:induction false} FastClockOveradmitsIff(s: State, max: int, clock: int, token: string, now: int, lease: int)
    requires max >= 0 && Reachable(s, max, clock) && Covered(s) && |Live(s)| == max
    requires token !in s.granted && now + LeaseMillis(lease) > s.clock
    ensures |Live(Apply(s, Acquire(token, now, lease)))| == if TakenForOver(s, now) then max + 1 else max
    ensures now <= s.clock ==> !TakenForOver(s, now)
  {
    ReachableKeepsInv(s, max, clock);
    FullAdmitsIff(s, max, clock, now);
    hide Admits, AfterAcquire, LeaseMillis, TakenForOver;
    var t := Apply(s, Acquire(token, now, lease));
    if Admits(s.permits, now, s.max) {
      assert Live(t) == Live(s) + {token};
    } else {
      assert Live(t) == Live(s);
    }
    NoneTakenForOver(s, now);
  }

  lemma NoneTakenForOver(s: State, now: int)
    ensures now <= s.clock ==> !TakenForOver(s, now)
  {
  }

  /** A lease shorter than a millisecond is stored as one that has already run out: it never counts. */
  lemma SubMillisecondLeaseNeverCounts(s: State, token: string, now: int, lease: int)
    requires Allowed(s, Acquire(token, now, lease)) && lease < NANOSECONDS_IN_A_MILLISECOND
    ensures now <= s.clock ==> token !in Live(Apply(s, Acquire(token, now, lease)))
    ensures Admits(s.permits, s.clock, s.max) ==>
              Admits(Apply(s, Acquire(token, s.clock, lease)).permits, s.clock, s.max)
  {
    assert LeaseMillis(lease) == 0;
    if Admits(s.permits, s.clock, s.max) {
      var p := Purge(s.permits, s.clock);
      var q := Purge(p[token := s.clock], s.clock);
      SubsetIsNoLarger(q.Keys, p.Keys);
      assert |q.Keys| == |q| && |p.Keys| == |p|;
    }
  }
}
