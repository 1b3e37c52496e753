/** Per-node health: four states driven by successes and failures, and what history they encode. */
module NodeHealth {
  import opened Wrappers

  datatype HealthState = Healthy | Suspect | Excluded | Rehabilitating

  const SUSPECT_THRESHOLD := 3
  const EXCLUDED_THRESHOLD := 5
  const REHAB_WINDOW_SECS := 60
  const LATENCY_WINDOW := 20

  /** Times are whole seconds of a clock that does not run backwards. */
  datatype Health = Health(
    state: HealthState,
    consecutiveFailures: nat,
    lastSuccessAt: Option<int>,
    excludedSince: Option<int>,
    latencySamples: seq<int>)

  const FRESH := Health(Healthy, 0, None, None, [])

  /** `deque(maxlen=20).append` */
  function AddSample(samples: seq<int>, latency: int): seq<int> {
    var all := samples + [latency];
    if |all| > LATENCY_WINDOW then all[|all| - LATENCY_WINDOW..] else all
  }

  function OnSuccess(x: Health, latency: int, now: int): Health {
    var y := x.(latencySamples := AddSample(x.latencySamples, latency), consecutiveFailures := 0, lastSuccessAt := Some(now));
    match x.state
    case Excluded =>
      if x.excludedSince.Some? && now - x.excludedSince.value >= REHAB_WINDOW_SECS
      then y.(state := Rehabilitating, excludedSince := None)
      else y
    case _ => y.(state := Healthy)
  }

  function OnFailure(x: Health, now: int): Health {
    var y := x.(consecutiveFailures := x.consecutiveFailures + 1);
    if x.state.Excluded? then y
    else if y.consecutiveFailures >= EXCLUDED_THRESHOLD then y.(state := Excluded, excludedSince := Some(now))
    else if y.consecutiveFailures >= SUSPECT_THRESHOLD then y.(state := Suspect)
    else if x.state.Rehabilitating? then y.(state := Suspect)
    else y
  }

  function Lookup(nodes: map<string, Health>, id: string): Health {
    if id in nodes then nodes[id] else FRESH
  }

  class NodeHealthRegistry {
    var nodes: map<string, Health>

    constructor ()
      ensures nodes == map[]
    {
      nodes := map[];
    }

    /** `_get_or_create` */
    method Get(id: string) returns (health: Health)
      modifies this
      ensures health == Lookup(old(nodes), id)
      ensures nodes == old(nodes)[id := health]
    {
      if id !in nodes {
        nodes := nodes[id := FRESH];
      }
      health := nodes[id];
    }

    method RecordSuccess(id: string, latency: int, now: int)
      modifies this
      ensures nodes == old(nodes)[id := OnSuccess(Lookup(old(nodes), id), latency, now)]
    {
      var health := Get(id);
      health := health.(latencySamples := AddSample(health.latencySamples, latency));
      health := health.(consecutiveFailures := 0, lastSuccessAt := Some(now));
      if health.state == Excluded {
        if health.excludedSince.Some? && now - health.excludedSince.value >= REHAB_WINDOW_SECS {
          health := health.(state := Rehabilitating, excludedSince := None);
        }
      } else if health.state == Rehabilitating {
        health := health.(state := Healthy);
      } else if health.state in {Suspect, Healthy} {
        health := health.(state := Healthy);
      }
      nodes := nodes[id := health];
    }

    method RecordFailure(id: string, now: int)
      modifies this
      ensures nodes == old(nodes)[id := OnFailure(Lookup(old(nodes), id), now)]
    {
      var health := Get(id);
      health := health.(consecutiveFailures := health.consecutiveFailures + 1);
      if health.state == Excluded {
      } else if health.consecutiveFailures >= EXCLUDED_THRESHOLD {
        health := health.(state := Excluded, excludedSince := Some(now));
      } else if health.consecutiveFailures >= SUSPECT_THRESHOLD {
        if health.state !in {Suspect, Excluded} {
          health := health.(state := Suspect);
        }
      } else if health.state == Rehabilitating {
        health := health.(state := Suspect);
      }
      nodes := nodes[id := health];
    }
  }

  // ------------------------------------------------------------------
  // Health as a function of history
  // ------------------------------------------------------------------

  datatype HealthEvent = Success(latency: int, now: int) | Failure(now: int)

  function OnEvent(x: Health, e: HealthEvent): Health {
    match e
    case Success(latency, now) => OnSuccess(x, latency, now)
    case Failure(now) => OnFailure(x, now)
  }

  function After(events: seq<HealthEvent>): Health {
    if events == [] then FRESH else OnEvent(After(events[..|events| - 1]), events[|events| - 1])
  }

  /** Failures since the last success. */
  function Trailing(events: seq<HealthEvent>): nat {
    if events == [] || events[|events| - 1].Success? then 0 else 1 + Trailing(events[..|events| - 1])
  }

  /** The time of the last success. */
  function LastSuccess(events: seq<HealthEvent>): Option<int> {
    if events == [] then None
    else
      var e := events[|events| - 1];
      if e.Success? then Some(e.now) else LastSuccess(events[..|events| - 1])
  }

  /** The latencies of all successes, oldest first. */
  function Latencies(events: seq<HealthEvent>): seq<int> {
    if events == [] then []
    else
      var e := events[|events| - 1];
      Latencies(events[..|events| - 1]) + if e.Success? then [e.latency] else []
  }

  /** The last twenty of a list. */
  function LastTwenty(all: seq<int>): seq<int> {
    all[if |all| > 20 then |all| - 20 else 0..]
  }

  lemma SampleAdded(all: seq<int>, latency: int)
    ensures AddSample(LastTwenty(all), latency) == LastTwenty(all + [latency])
  {
  }

  /** Timestamps and latency window are the latest of the history. */
  lemma {:induction false} SamplesFromHistory(events: seq<HealthEvent>)
    ensures After(events).lastSuccessAt == LastSuccess(events)
    ensures
      var all := Latencies(events);
      After(events).latencySamples == all[if |all| > 20 then |all| - 20 else 0..]
  {
    if events != [] {
      hide AddSample;
      var before, e := events[..|events| - 1], events[|events| - 1];
      SamplesFromHistory(before);
      if e.Success? {
        SampleAdded(Latencies(before), e.latency);
      } else {
        assert Latencies(before) + [] == Latencies(before);
      }
    }
  }

  /** The counter counts, and each state confines it. */
  lemma {:induction false} HealthFromHistory(events: seq<HealthEvent>)
    ensures
      var x := After(events);
      && x.consecutiveFailures == Trailing(events)
      && (x.state.Healthy? ==> x.consecutiveFailures <= 2)
      && (x.state.Suspect? ==> 1 <= x.consecutiveFailures <= 4)
      && (x.state.Rehabilitating? ==> x.consecutiveFailures == 0)
      && (x.state.Excluded? <==> x.excludedSince.Some?)
      && |x.latencySamples| <= 20
  {
    if events != [] {
      HealthFromHistory(events[..|events| - 1]);
    }
  }

  /** A non-excluded node becomes excluded exactly at its fifth consecutive failure. */
  lemma {:induction false} ExclusionExact(events: seq<HealthEvent>, e: HealthEvent)
    requires !After(events).state.Excluded?
    ensures After(events + [e]).state.Excluded? <==> Trailing(events + [e]) == 5
    ensures After(events + [e]).state.Excluded? ==> e.Failure? && After(events + [e]).excludedSince == Some(e.now)
  {
    HealthFromHistory(events);
    assert (events + [e])[..|events|] == events;
  }

  /** `events[i]` is a success at least the rehabilitation window after `since`. */
  predicate Rehabilitates(events: seq<HealthEvent>, i: nat, since: int) {
    i < |events| && events[i].Success? && events[i].now - since >= 60
  }

  predicate SuccessAfter(events: seq<HealthEvent>, i: nat) {
    exists j :: i < j < |events| && events[j].Success?
  }

  lemma LaterSuccess(events: seq<HealthEvent>, e: HealthEvent, i: nat, since: int)
    requires Rehabilitates(events, i, since)
    ensures Rehabilitates(events + [e], i, since)
    ensures SuccessAfter(events, i) || e.Success? ==> SuccessAfter(events + [e], i)
  {
    var all := events + [e];
    assert all[i] == events[i] && all[|events|] == e;
    if SuccessAfter(events, i) {
      var j :| i < j < |events| && events[j].Success?;
      assert all[j].Success?;
    }
  }

  /** The node is still excluded from `since` on, or it left by a late enough success. */
  predicate StillOut(x: Health, since: int) {
    x.state.Excluded? && x.excludedSince == Some(since)
  }

  ghost predicate CameBack(x: Health, events: seq<HealthEvent>, since: int) {
    exists i: nat :: Rehabilitates(events, i, since) && (x.state.Healthy? ==> SuccessAfter(events, i))
  }

  lemma ExclusionStep(x: Health, events: seq<HealthEvent>, e: HealthEvent, since: int)
    requires StillOut(x, since) || CameBack(x, events, since)
    ensures StillOut(OnEvent(x, e), since) || CameBack(OnEvent(x, e), events + [e], since)
  {
    if StillOut(x, since) {
      if !StillOut(OnEvent(x, e), since) {
        assert Rehabilitates(events + [e], |events|, since);
      }
    } else {
      var i: nat :| Rehabilitates(events, i, since) && (x.state.Healthy? ==> SuccessAfter(events, i));
      LaterSuccess(events, e, i, since);
    }
  }

  /** Until a late enough success nothing changes, and one more success is needed to be healthy. */
  lemma {:induction false} AfterExclusion(before: seq<HealthEvent>, after: seq<HealthEvent>, since: int)
    requires StillOut(After(before), since)
    ensures StillOut(After(before + after), since) || CameBack(After(before + after), after, since)
    decreases |after|
  {
    hide After, OnEvent, StillOut, CameBack;
    if after == [] {
      assert before + after == before;
    } else {
      var n := |after| - 1;
      AfterExclusion(before, after[..n], since);
      AfterLast(before, after, n);
      ExclusionStep(After(before + after[..n]), after[..n], after[n], since);
      assert after == after[..n] + [after[n]];
    }
  }

  lemma {:induction false} AfterLast(before: seq<HealthEvent>, after: seq<HealthEvent>, n: nat)
    requires |after| == n + 1
    ensures After(before + after) == OnEvent(After(before + after[..n]), after[n])
  {
    hide OnEvent;
    var all := before + after;
    assert all[..|all| - 1] == before + after[..n];
  }

  /** A node that was excluded and is healthy again had two successes, the earlier one after the window. */
  lemma {:induction false} RehabilitationNeedsTwoSuccesses(before: seq<HealthEvent>, after: seq<HealthEvent>)
    requires After(before).state.Excluded? && After(before + after).state.Healthy?
    ensures After(before).excludedSince.Some?
    ensures exists i: nat :: Rehabilitates(after, i, After(before).excludedSince.value) && SuccessAfter(after, i)
  {
    HealthFromHistory(before);
    var since := After(before).excludedSince.value;
    AfterExclusion(before, after, since);
  }

  /** Two successes in a row make an excluded node healthy exactly when the first one comes after the window. */
  lemma {:induction false} TwoSuccessesRehabilitate(before: seq<HealthEvent>, first: HealthEvent, second: HealthEvent)
    requires After(before).state.Excluded? && first.Success? && second.Success?
    ensures After(before).excludedSince.Some?
    ensures After(before + [first] + [second]).state.Healthy?
      <==> first.now - After(before).excludedSince.value >= 60
  {
    HealthFromHistory(before);
    assert (before + [first])[..|before|] == before;
    assert (before + [first] + [second])[..|before| + 1] == before + [first];
  }

  // ------------------------------------------------------------------
  // The exact state
  // ------------------------------------------------------------------

  /** Never five failures in a row. */
  ghost predicate NeverFive(events: seq<HealthEvent>) {
    forall k :: 0 <= k <= |events| ==> Trailing(events[..k]) < 5
  }

  lemma NeverFiveBefore(events: seq<HealthEvent>, n: nat)
    requires NeverFive(events) && n <= |events|
    ensures NeverFive(events[..n]) && Trailing(events[..n]) < 5
  {
    forall k | 0 <= k <= n ensures Trailing(events[..n][..k]) < 5 {
      assert events[..n][..k] == events[..k];
    }
  }

  /** A node that was never excluded is suspect from the third failure in a row on, and healthy otherwise. */
  lemma {:induction false} StateBeforeExclusion(events: seq<HealthEvent>)
    requires NeverFive(events)
    ensures After(events).state == if Trailing(events) >= 3 then Suspect else Healthy
    ensures After(events).excludedSince == None
    decreases |events|
  {
    if events != [] {
      var n := |events| - 1;
      NeverFiveBefore(events, n);
      assert events[..|events|] == events;
      StateBeforeExclusion(events[..n]);
      HealthFromHistory(events[..n]);
    }
  }

  /**
    A rehabilitating node is suspect from its first failure on until it
    succeeds; after a success it is as if it had never been excluded.
   */
  lemma {:induction false} StateAfterRehabilitation(before: seq<HealthEvent>, after: seq<HealthEvent>)
    requires After(before).state.Rehabilitating? && NeverFive(after)
    ensures After(before + after).consecutiveFailures == Trailing(after)
    ensures After(before + after).state ==
            if after == [] then Rehabilitating
            else if Trailing(after) >= 3 || Trailing(after) == |after| then Suspect
            else Healthy
    decreases |after|
  {
    HealthFromHistory(before);
    if after == [] {
      assert before + after == before;
    } else {
      var n := |after| - 1;
      NeverFiveBefore(after, n);
      assert after[..|after|] == after;
      StateAfterRehabilitation(before, after[..n]);
      AfterLast(before, after, n);
      TrailingBound(after[..n]);
    }
  }

  lemma {:induction false} TrailingBound(events: seq<HealthEvent>)
    ensures Trailing(events) <= |events|
  {
    if events != [] {
      TrailingBound(events[..|events| - 1]);
    }
  }

  /** An excluded node stays excluded, since the same time, up to a success at least 60 seconds later, and that one rehabilitates it. */
  lemma {:induction false} StateAfterExclusion(before: seq<HealthEvent>, after: seq<HealthEvent>, since: int)
    requires StillOut(After(before), since) && forall i: nat :: i < |after| ==> !Rehabilitates(after, i, since)
    ensures StillOut(After(before + after), since)
    ensures forall e: HealthEvent :: Rehabilitates([e], 0, since) ==>
              After(before + after + [e]).state.Rehabilitating? && After(before + after + [e]).excludedSince.None?
    decreases |after|
  {
    if after == [] {
      assert before + after == before;
    } else {
      var n := |after| - 1;
      assert forall i: nat :: i < n && Rehabilitates(after[..n], i, since) ==> Rehabilitates(after, i, since);
      StateAfterExclusion(before, after[..n], since);
      AfterLast(before, after, n);
      assert !Rehabilitates(after, n, since);
    }
    forall e: HealthEvent | Rehabilitates([e], 0, since)
      ensures After(before + after + [e]).state.Rehabilitating? && After(before + after + [e]).excludedSince.None?
    {
      assert (before + after + [e])[..|before + after|] == before + after;
    }
  }
}
