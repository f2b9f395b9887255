/**
 * The edge-triggered alert latch of the polling loop: the set `alerted` of
 * clinicians already reported out of zone since they were last seen inside.
 * Being on the zone's boundary counts as outside.
 */
module Latch {

  /** Clinicians are tracked by integer id. */
  type ClinicianId = int

  /** The latch after one observation, and whether an alert is requested. */
  datatype Outcome = Outcome(alerted: set<ClinicianId>, notify: bool)

  /**
   * One observation of one clinician: outside and not yet alerted latches
   * and requests an alert; outside and alerted does nothing; inside unlatches.
   */
  function Step(alerted: set<ClinicianId>, id: ClinicianId, inside: bool): (r: Outcome)
    ensures r.notify <==> !inside && id !in alerted
    ensures id in r.alerted <==> !inside
    ensures r.alerted - {id} == alerted - {id}
  {
    if !inside then
      if id !in alerted then Outcome(alerted + {id}, true) else Outcome(alerted, false)
    else
      if id in alerted then Outcome(alerted - {id}, false) else Outcome(alerted, false)
  }

  /** The latch as the polling loop keeps it: created empty, updated in place. */
  class AlertLatch {
    var alerted: set<ClinicianId>

    constructor ()
      ensures alerted == {}
    {
      alerted := {};
    }

    /** Applies one observation; `notify` stands for sending the alert email. */
    method Observe(id: ClinicianId, inside: bool) returns (notify: bool)
      modifies this
      ensures Outcome(alerted, notify) == Step(old(alerted), id, inside)
      ensures notify <==> !inside && id !in old(alerted)
      ensures alerted == if inside then old(alerted) - {id} else old(alerted) + {id}
    {
      notify := false;
      if !inside {
        if id !in alerted {
          alerted := alerted + {id};
          notify := true;
        }
      } else {
        if id in alerted {
          alerted := alerted - {id};
        }
      }
    }
  }

  // ---------------------------------------------------------------------
  // Successive observations of one clinician

  /** The latch and the alert requests after observing one clinician cycle by cycle. */
  datatype Replayed = Replayed(alerted: set<ClinicianId>, notices: seq<bool>)

  function Replay(alerted: set<ClinicianId>, id: ClinicianId, trace: seq<bool>): (r: Replayed)
    ensures |r.notices| == |trace|
  {
    if |trace| == 0 then Replayed(alerted, [])
    else
      var before := Replay(alerted, id, trace[..|trace| - 1]);
      var step := Step(before.alerted, id, trace[|trace| - 1]);
      Replayed(step.alerted, before.notices + [step.notify])
  }

  /**
   * Cycle j begins an excursion: the clinician is outside at j and was
   * inside at j - 1 (or, at the first cycle, was not already latched).
   */
  predicate ExcursionStartsAt(latched: bool, trace: seq<bool>, j: nat)
    requires j < |trace|
  {
    !trace[j] && (if j == 0 then !latched else trace[j - 1])
  }

  /**
   * Edge triggering: an alert is requested exactly at the cycles that begin
   * an excursion; afterwards the clinician is latched exactly when last seen
   * outside, and no other clinician's membership moves.
   */
  lemma {:induction false} ReplayAlertsAtExcursionStarts(alerted: set<ClinicianId>, id: ClinicianId, trace: seq<bool>)
    ensures forall j :: 0 <= j < |trace| ==>
              (Replay(alerted, id, trace).notices[j] <==> ExcursionStartsAt(id in alerted, trace, j))
    ensures id in Replay(alerted, id, trace).alerted <==>
              if |trace| == 0 then id in alerted else !trace[|trace| - 1]
    ensures Replay(alerted, id, trace).alerted - {id} == alerted - {id}
  {
    if |trace| > 0 {
      var front := trace[..|trace| - 1];
      ReplayAlertsAtExcursionStarts(alerted, id, front);
      var r := Replay(alerted, id, trace);
      forall j | 0 <= j < |trace|
        ensures r.notices[j] <==> ExcursionStartsAt(id in alerted, trace, j)
      {
        if j < |front| {
          assert r.notices[j] == Replay(alerted, id, front).notices[j];
          assert ExcursionStartsAt(id in alerted, trace, j) == ExcursionStartsAt(id in alerted, front, j);
        }
      }
    }
  }

  /** Between two alerts for one clinician it was seen inside at least once. */
  lemma AtMostOneAlertPerExcursion(alerted: set<ClinicianId>, id: ClinicianId, trace: seq<bool>, i: nat, j: nat)
    requires i < j < |trace|
    requires Replay(alerted, id, trace).notices[i] && Replay(alerted, id, trace).notices[j]
    ensures exists k :: i < k < j && trace[k]
  {
    ReplayAlertsAtExcursionStarts(alerted, id, trace);
    assert trace[j - 1];
  }

  /** Staying outside alerts once; coming back inside unlatches. */
  lemma RepeatedOutsideAlertsOnce(alerted: set<ClinicianId>, id: ClinicianId)
    requires id !in alerted
    ensures Replay(alerted, id, [false, false, true]) == Replayed(alerted, [true, false, false])
  {
    var trace := [false, false, true];
    ReplayAlertsAtExcursionStarts(alerted, id, trace);
    var r := Replay(alerted, id, trace);
    assert r.notices[0] && !r.notices[1] && !r.notices[2];
    assert r.alerted == alerted;
  }

  /** Leaving, coming back and leaving again alerts twice. */
  lemma ReentryRearmsAlert(alerted: set<ClinicianId>, id: ClinicianId)
    requires id !in alerted
    ensures Replay(alerted, id, [false, true, false]).notices == [true, false, true]
  {
    var trace := [false, true, false];
    ReplayAlertsAtExcursionStarts(alerted, id, trace);
    var r := Replay(alerted, id, trace);
    assert r.notices[0] && !r.notices[1] && r.notices[2];
  }
}
