/**
 * One pass of the polling loop: for each tracked clinician, the fetched
 * status payload is reduced to a snapshot, the position is classified
 * against the zone, and the alert latch is updated. Fetching the payload and
 * sending the alert email are outside the model: the payload is a
 * parameter, and an alert is a returned flag or an id in the returned list.
 */
module Monitor {
  import opened Wrappers
  import opened Classifier
  import opened Zone
  import opened Latch

  /**
   * The feature list of a fetched status payload; None when the fetch
   * failed, the payload was empty or it had no feature list.
   */
  type Payload = Option<seq<Feature>>

  /** The latch update of one cycle for one clinician. */
  function CycleOutcome(alerted: set<ClinicianId>, id: ClinicianId, payload: Payload): (r: Outcome)
    ensures r.alerted - {id} == alerted - {id}
    ensures r.notify <==> id !in alerted && id in r.alerted
    ensures payload.None? || Select(payload.value).None? ==> r == Outcome(alerted, false)
    ensures payload.Some? && Select(payload.value).Some? ==>
              var s := Select(payload.value).value;
              id in r.alerted <==> Classify(s.point, s.zone) != Inside
  {
    if payload.None? then Outcome(alerted, false)
    else
      match Select(payload.value)
      case None => Outcome(alerted, false)
      case Some(s) => Step(alerted, id, Classify(s.point, s.zone) == Inside)
  }

  /** The body of the polling loop for one clinician; `notify` stands for the alert email. */
  method Cycle(latch: AlertLatch, id: ClinicianId, payload: Payload) returns (notify: bool)
    modifies latch
    ensures Outcome(latch.alerted, notify) == CycleOutcome(old(latch.alerted), id, payload)
  {
    if payload.None? {
      return false;
    }
    var snapshot := SelectSnapshot(payload.value);
    if snapshot.None? {
      return false;
    }
    var inside := InZone(snapshot.value.point, snapshot.value.zone);
    notify := latch.Observe(id, inside);
  }

  /** The latch after one pass over the tracked clinicians, and whom it alerted, in order. */
  datatype RoundResult = RoundResult(alerted: set<ClinicianId>, notified: seq<ClinicianId>)

  function Sweep(alerted: set<ClinicianId>, ids: seq<ClinicianId>, payloads: seq<Payload>): (r: RoundResult)
    requires |payloads| == |ids|
    ensures forall id :: id in r.notified ==> id in ids
    ensures forall id :: id !in ids ==> (id in r.alerted <==> id in alerted)
  {
    if |ids| == 0 then RoundResult(alerted, [])
    else
      var n := |ids|;
      var before := Sweep(alerted, ids[..n - 1], payloads[..n - 1]);
      var cycle := CycleOutcome(before.alerted, ids[n - 1], payloads[n - 1]);
      RoundResult(cycle.alerted, before.notified + if cycle.notify then [ids[n - 1]] else [])
  }

  /** One pass of the `while True` loop over the tracked clinicians, without the sleep. */
  method Round(latch: AlertLatch, ids: seq<ClinicianId>, payloads: seq<Payload>) returns (notified: seq<ClinicianId>)
    requires |payloads| == |ids|
    modifies latch
    ensures RoundResult(latch.alerted, notified) == Sweep(old(latch.alerted), ids, payloads)
  {
    notified := [];
    var k := 0;
    while k < |ids|
      invariant 0 <= k <= |ids|
      invariant RoundResult(latch.alerted, notified) == Sweep(old(latch.alerted), ids[..k], payloads[..k])
    {
      assert ids[..k + 1][..k] == ids[..k];
      assert payloads[..k + 1][..k] == payloads[..k];
      var notify := Cycle(latch, ids[k], payloads[k]);
      if notify {
        notified := notified + [ids[k]];
      }
      k := k + 1;
    }
    assert ids[..k] == ids && payloads[..k] == payloads;
  }

  predicate Distinct(ids: seq<ClinicianId>) {
    forall i, j :: 0 <= i < j < |ids| ==> ids[i] != ids[j]
  }

  /**
   * Over a list of distinct clinicians, a pass alerts exactly the clinicians
   * it newly latches, each once.
   */
  lemma {:induction false} SweepAlertsNewlyLatched(alerted: set<ClinicianId>, ids: seq<ClinicianId>, payloads: seq<Payload>)
    requires |payloads| == |ids| && Distinct(ids)
    ensures forall id :: id in Sweep(alerted, ids, payloads).notified <==>
              id in Sweep(alerted, ids, payloads).alerted && id !in alerted
  {
    if |ids| > 0 {
      var n := |ids|;
      var front, last := ids[..n - 1], ids[n - 1];
      SweepAlertsNewlyLatched(alerted, front, payloads[..n - 1]);
      assert last !in front;
    }
  }

  /** A clinician's own cycle depends on the latch only through that clinician's membership. */
  lemma CycleOutcomeOwnMembership(a: set<ClinicianId>, b: set<ClinicianId>, id: ClinicianId, payload: Payload)
    requires id in a <==> id in b
    ensures id in CycleOutcome(a, id, payload).alerted <==> id in CycleOutcome(b, id, payload).alerted
    ensures CycleOutcome(a, id, payload).notify == CycleOutcome(b, id, payload).notify
  {
  }

  /** The last cycle of a pass touches only the last clinician. */
  lemma SweepLastCycleFrames(alerted: set<ClinicianId>, ids: seq<ClinicianId>, payloads: seq<Payload>, id: ClinicianId)
    requires |payloads| == |ids| > 0 && id != ids[|ids| - 1]
    ensures id in Sweep(alerted, ids, payloads).alerted
            <==> id in Sweep(alerted, ids[..|ids| - 1], payloads[..|ids| - 1]).alerted
    ensures id in Sweep(alerted, ids, payloads).notified
            <==> id in Sweep(alerted, ids[..|ids| - 1], payloads[..|ids| - 1]).notified
  {
  }

  /** The last clinician of a distinct list is latched and alerted by its own cycle alone. */
  lemma SweepLastClinician(alerted: set<ClinicianId>, ids: seq<ClinicianId>, payloads: seq<Payload>)
    requires |payloads| == |ids| > 0 && Distinct(ids)
    ensures var last := ids[|ids| - 1];
            && (last in Sweep(alerted, ids, payloads).alerted
                <==> last in CycleOutcome(alerted, last, payloads[|ids| - 1]).alerted)
            && (last in Sweep(alerted, ids, payloads).notified
                <==> CycleOutcome(alerted, last, payloads[|ids| - 1]).notify)
  {
    var n := |ids|;
    var front, last := ids[..n - 1], ids[n - 1];
    var before := Sweep(alerted, front, payloads[..n - 1]);
    assert last !in front;
    CycleOutcomeOwnMembership(before.alerted, alerted, last, payloads[n - 1]);
  }

  /**
   * Over a list of distinct clinicians, each one ends the pass latched, and
   * is alerted, exactly as its own cycle would leave it starting from the
   * latch before the pass: no other clinician's cycle affects it.
   */
  lemma {:induction false} SweepActsPerClinician(alerted: set<ClinicianId>, ids: seq<ClinicianId>, payloads: seq<Payload>, k: nat)
    requires |payloads| == |ids| && Distinct(ids) && k < |ids|
    ensures ids[k] in Sweep(alerted, ids, payloads).alerted
            <==> ids[k] in CycleOutcome(alerted, ids[k], payloads[k]).alerted
    ensures ids[k] in Sweep(alerted, ids, payloads).notified
            <==> CycleOutcome(alerted, ids[k], payloads[k]).notify
  {
    var n := |ids|;
    if k == n - 1 {
      SweepLastClinician(alerted, ids, payloads);
    } else {
      var front := ids[..n - 1];
      assert front[k] == ids[k] && payloads[..n - 1][k] == payloads[k];
      assert Distinct(front);
      SweepActsPerClinician(alerted, front, payloads[..n - 1], k);
      SweepLastCycleFrames(alerted, ids, payloads, ids[k]);
    }
  }

  /** A skipped cycle (no payload, or no usable snapshot) leaves the latch as it was and alerts nobody. */
  lemma SkippedCycleKeepsLatch(alerted: set<ClinicianId>, id: ClinicianId, features: seq<Feature>)
    requires FirstPointCoordinates(features).None? || FirstPolygonRings(features).None?
    ensures CycleOutcome(alerted, id, Some(features)) == Outcome(alerted, false)
    ensures CycleOutcome(alerted, id, None) == Outcome(alerted, false)
  {
  }
}
