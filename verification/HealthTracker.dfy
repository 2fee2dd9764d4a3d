/** The health tracker: an instance changes status only after enough equal check results in a row. */
module HealthTracker {

  datatype Status = Healthy | Unhealthy | Unknown

  /** How many equal results in a row it takes. */
  datatype Config = Config(failureThreshold: nat, successThreshold: nat) {
    function Threshold(healthy: bool): nat {
      if healthy then successThreshold else failureThreshold
    }
  }

  datatype State = State(failures: nat, successes: nat, status: Status)

  const FRESH := State(0, 0, Unknown)

  datatype Event = Check(healthy: bool) | Reset

  function Verdict(healthy: bool): Status {
    if healthy then Healthy else Unhealthy
  }

  function Step(c: Config, s: State, e: Event): State {
    match e
    case Reset => FRESH
    case Check(true) =>
      State(0, s.successes + 1, if s.successes + 1 >= c.successThreshold then Healthy else s.status)
    case Check(false) =>
      State(s.failures + 1, 0, if s.failures + 1 >= c.failureThreshold then Unhealthy else s.status)
  }

  function Run(c: Config, events: seq<Event>): State {
    if events == [] then FRESH else Step(c, Run(c, events[..|events| - 1]), events[|events| - 1])
  }

  // ---- hysteresis ----

  /** The number of times the status changed to `status`. */
  function EntriesInto(c: Config, events: seq<Event>, status: Status): nat {
    if events == [] then
      0
    else
      var front := events[..|events| - 1];
      var entered := Run(c, front).status != status && Run(c, events).status == status;
      EntriesInto(c, front, status) + if entered then 1 else 0
  }

  /** The number of checks with this result. */
  function Checks(events: seq<Event>, healthy: bool): nat {
    if events == [] then 0
    else Checks(events[..|events| - 1], healthy) + if events[|events| - 1] == Check(healthy) then 1 else 0
  }

  /** The length of the current row of equal results. */
  function Row(s: State, healthy: bool): nat {
    if healthy then s.successes else s.failures
  }

  lemma OneMore(n: nat, threshold: nat)
    ensures (n + 1) * threshold == n * threshold + threshold
  {
  }

  /** Each entry into a status has used up a full row of checks with its result, and
      the current row has not been used up unless the status is already there. */
  lemma {:induction false} EntriesArePaidFor(c: Config, events: seq<Event>, healthy: bool)
    ensures EntriesInto(c, events, Verdict(healthy)) * c.Threshold(healthy)
            + (if Run(c, events).status == Verdict(healthy) then 0 else Row(Run(c, events), healthy))
         <= Checks(events, healthy)
  {
    if events != [] {
      var front := events[..|events| - 1];
      EntriesArePaidFor(c, front, healthy);
      OneMore(EntriesInto(c, front, Verdict(healthy)), c.Threshold(healthy));
    }
  }

  /** Over any run, resets included, the status cannot become Unhealthy more often than the failed checks
      pay for at `failure_threshold` each, nor Healthy more often than the successful ones do. */
  lemma StatusCannotFlap(c: Config, events: seq<Event>)
    ensures EntriesInto(c, events, Unhealthy) * c.failureThreshold <= Checks(events, false)
    ensures EntriesInto(c, events, Healthy) * c.successThreshold <= Checks(events, true)
  {
    EntriesArePaidFor(c, events, false);
    EntriesArePaidFor(c, events, true);
  }

  // ---- the status, told from the events alone ----

  /** The number of checks with this result at the very end of the events. */
  function Tail(events: seq<Event>, healthy: bool): nat {
    if events == [] || events[|events| - 1] != Check(healthy) then 0
    else 1 + Tail(events[..|events| - 1], healthy)
  }

  lemma {:induction false} CountersAreTails(c: Config, events: seq<Event>)
    ensures Row(Run(c, events), true) == Tail(events, true) && Row(Run(c, events), false) == Tail(events, false)
  {
    if events != [] {
      CountersAreTails(c, events[..|events| - 1]);
    }
  }

  /** Event `i` completes a long enough row of this result. */
  ghost predicate Decisive(c: Config, events: seq<Event>, i: nat, healthy: bool)
    requires i < |events|
  {
    events[i] == Check(healthy) && Tail(events[..i + 1], healthy) >= c.Threshold(healthy)
  }

  /** Event `i` completes a row of this result, and no later event resets the tracker
      or completes a row of the other result. */
  ghost predicate LastDecision(c: Config, events: seq<Event>, i: nat, healthy: bool) {
    && i < |events| && Decisive(c, events, i, healthy)
    && forall j :: i < j < |events| ==> events[j] != Reset && !Decisive(c, events, j, !healthy)
  }

  lemma LastDecisionAppend(c: Config, front: seq<Event>, e: Event, healthy: bool)
    ensures (exists i :: LastDecision(c, front + [e], i, healthy))
       <==> Decisive(c, front + [e], |front|, healthy)
            || (e != Reset && !Decisive(c, front + [e], |front|, !healthy)
                && exists i :: LastDecision(c, front, i, healthy))
  {
    var events := front + [e];
    forall j, h | 0 <= j < |front| ensures Decisive(c, events, j, h) == Decisive(c, front, j, h) {
      assert events[..j + 1] == front[..j + 1];
    }
    assert forall j :: 0 <= j < |front| ==> front[j] == events[j];
    if i: nat :| LastDecision(c, events, i, healthy) {
      if i < |front| {
        assert LastDecision(c, front, i, healthy);
        assert events[|front|] == e;
      }
    }
    if i: nat :| LastDecision(c, front, i, healthy) && e != Reset && !Decisive(c, events, |front|, !healthy) {
      assert LastDecision(c, events, i, healthy);
    }
    if Decisive(c, events, |front|, healthy) {
      assert LastDecision(c, events, |front|, healthy);
    }
  }

  /** The status is that of the last completed row since the last reset, and Unknown if there is none. */
  lemma {:induction false} StatusIsLastDecision(c: Config, events: seq<Event>, healthy: bool)
    ensures Run(c, events).status == Verdict(healthy) <==> exists i :: LastDecision(c, events, i, healthy)
  {
    if events != [] {
      var front, e := events[..|events| - 1], events[|events| - 1];
      assert events == front + [e] && events[..|front| + 1] == events;
      StatusIsLastDecision(c, front, healthy);
      CountersAreTails(c, events);
      CountersAreTails(c, front);
      LastDecisionAppend(c, front, e, healthy);
    }
  }

  class Tracker {
    var consecutiveFailures: nat
    var consecutiveSuccesses: nat
    var currentStatus: Status

    function Abs(): State
      reads this
    {
      State(consecutiveFailures, consecutiveSuccesses, currentStatus)
    }

    constructor ()
      ensures Abs() == FRESH
    {
      consecutiveFailures, consecutiveSuccesses, currentStatus := 0, 0, Unknown;
    }

    method Update(isHealthy: bool, config: Config) returns (status: Status)
      modifies this
      ensures Abs() == Step(config, old(Abs()), Check(isHealthy))
      ensures status == currentStatus
    {
      if isHealthy {
        consecutiveFailures := 0;
        consecutiveSuccesses := consecutiveSuccesses + 1;
        if consecutiveSuccesses >= config.successThreshold {
          currentStatus := Healthy;
        }
      } else {
        consecutiveSuccesses := 0;
        consecutiveFailures := consecutiveFailures + 1;
        if consecutiveFailures >= config.failureThreshold {
          currentStatus := Unhealthy;
        }
      }
      status := currentStatus;
    }

    method ResetTracker()
      modifies this
      ensures Abs() == FRESH
    {
      consecutiveFailures, consecutiveSuccesses, currentStatus := 0, 0, Unknown;
    }
  }
}
