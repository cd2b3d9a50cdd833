/**
  The first optimizer (api/optimize.old.ts). Each vehicle that passes the last-hour rule
  is timed to the pickup and on to the job's primary garage; when that arrival misses
  the primary's cutoff, the first fallback garage is tried. Vehicles with no route, or
  whose primary arrival runs past the shift, are dropped; the lowest pickup plus
  drop-off ETA wins. Only minutes are read from the routing oracle.
 */
module OptimizeOld {
  import opened Options
  import opened Text
  import opened Clock
  import opened Fleet
  import opened Intake
  import opened Greedy

  /** The "no route" drop-off ETA, also the bound at which a vehicle is skipped. */
  const NO_ROUTE_MINUTES: int := 9999
  /** On-site hook/load time, a constant of this optimizer. */
  const SERVICE_MINUTES: int := 10
  const DEFAULT_CUTOFF_MINUTES: int := 30

  /** `body.policies`, which replaces the defaults wholesale when present. */
  datatype PolicyInputOld = PolicyInputOld(noNewJobLastMinutes: Option<int>, maxOvertimeMinutes: Option<int>)

  datatype PoliciesOld = PoliciesOld(noNewJobLastMinutes: int, maxOvertimeMinutes: int)

  /**
    `body?.policies ?? { 60, 0 }`, then each field read with `?? 60` / `?? 0`: whether the
    object or one of its fields is missing, the rule falls back to 60 and 0.
   */
  function ResolveOld(input: Option<PolicyInputOld>): (r: PoliciesOld)
    ensures input.None? ==> r == PoliciesOld(60, 0)
    ensures input.Some? && input.value.noNewJobLastMinutes.Some? ==> r.noNewJobLastMinutes == input.value.noNewJobLastMinutes.value
    ensures input.Some? && input.value.noNewJobLastMinutes.None? ==> r.noNewJobLastMinutes == 60
    ensures input.Some? && input.value.maxOvertimeMinutes.Some? ==> r.maxOvertimeMinutes == input.value.maxOvertimeMinutes.value
    ensures input.Some? && input.value.maxOvertimeMinutes.None? ==> r.maxOvertimeMinutes == 0
  {
    var p := input.GetOr(PolicyInputOld(Some(60), Some(0)));
    PoliciesOld(p.noNewJobLastMinutes.GetOr(60), p.maxOvertimeMinutes.GetOr(0))
  }

  datatype CandidateV1 = CandidateV1(
    jobId: string,
    vehicleId: string,
    dropoffPlaceId: string,
    pickupEtaMinutes: int,
    dropoffEtaMinutes: int,
    willMissCutoff: bool,
    willExceedShift: bool,
    reason: string)

  /** `now + (pickupEta + dropoffEta + serviceMins) * 60000` */
  function ArrivalAt(now: int, pickupEta: int, dropoffEta: int): int {
    now + (pickupEta + dropoffEta + SERVICE_MINUTES) * MS_PER_MINUTE
  }

  /** `arrival > cutoff`; false against an invalid date. */
  predicate Misses(arrival: int, cutoff: Option<int>) {
    cutoff.Some? && arrival > cutoff.value
  }

  function Lookup(garageMap: map<string, Garage>, id: string): Option<Garage> {
    if id in garageMap then Some(garageMap[id]) else None
  }

  /** The primary garage's coordinates, when the hours service knows the garage and them. */
  function PrimaryCoords(job: JobV1, garageMap: map<string, Garage>): Option<Coord> {
    var g := Lookup(garageMap, job.dropoffPlaceId);
    if g.Some? then g.value.coords else None
  }

  /** `dropoffEta` before any fallback: pickup to the primary, or 9999 without its coordinates. */
  function PrimaryEta(job: JobV1, garageMap: map<string, Garage>, travel: TravelOracle): int {
    var c := PrimaryCoords(job, garageMap);
    if c.Some? then travel(job.pickup, c.value).minutes else NO_ROUTE_MINUTES
  }

  /** `willMissCutoff`: the primary arrival is past the primary's cutoff; false without coordinates. */
  predicate PrimaryMisses(job: JobV1, garageMap: map<string, Garage>, now: int, arrival: int) {
    var g := Lookup(garageMap, job.dropoffPlaceId);
    && PrimaryCoords(job, garageMap).Some?
    && Misses(arrival, TodaysCutoff(now, g.value.openingHours, g.value.intakeCutoffMinutes.GetOr(DEFAULT_CUTOFF_MINUTES)))
  }

  datatype DropPick = DropPick(placeId: string, eta: int)

  /**
    The first fallback id, when the hours service knows it with coordinates and the
    arrival there is within its cutoff; later fallback ids are never looked at.
   */
  function FirstFallback(job: JobV1, garageMap: map<string, Garage>, now: int, pickupEta: int,
                         travel: TravelOracle): Option<DropPick>
  {
    if |job.dropoffFallbackPlaceIds| == 0 then None
    else
      var fbId := job.dropoffFallbackPlaceIds[0];
      var fb := Lookup(garageMap, fbId);
      if fb.None? || fb.value.coords.None? then None
      else
        var fbEta := travel(job.pickup, fb.value.coords.value).minutes;
        var fbCutoff := TodaysCutoff(now, fb.value.openingHours, fb.value.intakeCutoffMinutes.GetOr(DEFAULT_CUTOFF_MINUTES));
        if StillOpen(ArrivalAt(now, pickupEta, fbEta), fbCutoff) then Some(DropPick(fbId, fbEta)) else None
  }

  /**
    The drop-off after the fallback step: the first fallback when the primary arrival
    misses the primary's cutoff and the fallback is available, else the primary.
   */
  function ChosenDrop(job: JobV1, garageMap: map<string, Garage>, now: int, pickupEta: int,
                      travel: TravelOracle): DropPick
  {
    var primaryEta := PrimaryEta(job, garageMap, travel);
    var fb := FirstFallback(job, garageMap, now, pickupEta, travel);
    if PrimaryMisses(job, garageMap, now, ArrivalAt(now, pickupEta, primaryEta)) && fb.Some? then fb.value
    else DropPick(job.dropoffPlaceId, primaryEta)
  }

  function ReasonOld(pickupEta: int, dropoffEta: int, primaryChosen: bool, willMissCutoff: bool): string {
    "Pickup ~" + IntToString(pickupEta) + "m, drop-off ~" + IntToString(dropoffEta) + "m. "
      + (if primaryChosen then
           (if willMissCutoff then "Primary near cutoff\U{2014}monitor." else "Within intake window.")
         else "Fallback chosen to meet intake cutoff.")
  }

  /** Vehicle `v`'s candidate for the job, or None when it is skipped. */
  function CandidateOld(job: JobV1, v: VehicleV1, garageMap: map<string, Garage>, pol: PoliciesOld, now: int,
                        travel: TravelOracle): Option<CandidateV1>
  {
    var shiftEnd := v.shiftEnd.GetOr(now);
    if NoNewJob(shiftEnd, now, pol.noNewJobLastMinutes, v.allowOvertime) then None
    else
      var pickupEta := travel(v.location, job.pickup).minutes;
      var primaryEta := PrimaryEta(job, garageMap, travel);
      var arrival := ArrivalAt(now, pickupEta, primaryEta);
      var willMiss := PrimaryMisses(job, garageMap, now, arrival);
      var willExceedShift := arrival > shiftEnd + pol.maxOvertimeMinutes * MS_PER_MINUTE;
      var pick := ChosenDrop(job, garageMap, now, pickupEta, travel);
      if pick.eta >= NO_ROUTE_MINUTES || willExceedShift then None
      else
        var primaryChosen := pick.placeId == job.dropoffPlaceId;
        Some(CandidateV1(job.id, v.id, pick.placeId, pickupEta, pick.eta,
          if primaryChosen then willMiss else false, willExceedShift,
          ReasonOld(pickupEta, pick.eta, primaryChosen, willMiss)))
  }

  /** Without primary coordinates the drop-off ETA stays 9999 and every vehicle is skipped. */
  lemma NoPrimaryCoordsNoCandidate(job: JobV1, v: VehicleV1, garageMap: map<string, Garage>, pol: PoliciesOld,
                                   now: int, travel: TravelOracle)
    requires PrimaryCoords(job, garageMap).None?
    ensures CandidateOld(job, v, garageMap, pol, now, travel).None?
  {
  }

  /**
    A vehicle is a candidate exactly when it passes the last-hour rule (a missing shift
    end counting as now), its arrival at the primary is within the shift plus
    overtime, and the chosen drop-off's ETA is below 9999, which needs the primary's
    coordinates. The shift test uses the primary arrival even when a fallback is chosen.
   */
  lemma CandidateOldGates(job: JobV1, v: VehicleV1, garageMap: map<string, Garage>, pol: PoliciesOld,
                          now: int, travel: TravelOracle)
    ensures var pickupEta := travel(v.location, job.pickup).minutes;
      var shiftEnd := v.shiftEnd.GetOr(now);
      var c := CandidateOld(job, v, garageMap, pol, now, travel);
      c.Some? <==>
        && !NoNewJob(shiftEnd, now, pol.noNewJobLastMinutes, v.allowOvertime)
        && ArrivalAt(now, pickupEta, PrimaryEta(job, garageMap, travel)) <= shiftEnd + pol.maxOvertimeMinutes * MS_PER_MINUTE
        && ChosenDrop(job, garageMap, now, pickupEta, travel).eta < NO_ROUTE_MINUTES
    ensures CandidateOld(job, v, garageMap, pol, now, travel).Some? ==>
      var c := CandidateOld(job, v, garageMap, pol, now, travel).value;
      && PrimaryCoords(job, garageMap).Some?
      && c.jobId == job.id && c.vehicleId == v.id && !c.willExceedShift
      && c.pickupEtaMinutes == travel(v.location, job.pickup).minutes
      && c.dropoffEtaMinutes < NO_ROUTE_MINUTES
  {
    var pickupEta := travel(v.location, job.pickup).minutes;
    if PrimaryCoords(job, garageMap).None? {
      assert ChosenDrop(job, garageMap, now, pickupEta, travel).eta == NO_ROUTE_MINUTES;
    }
  }

  /**
    The drop-off is the primary garage or the first fallback. The fallback is chosen only
    when the primary arrival misses its cutoff and the fallback's arrival does not miss
    its own; then its ETA replaces the primary one and `willMissCutoff` is false. With
    the primary kept, the ETA and `willMissCutoff` are the primary's.
   */
  lemma FallbackRule(job: JobV1, v: VehicleV1, garageMap: map<string, Garage>, pol: PoliciesOld,
                     now: int, travel: TravelOracle)
    requires CandidateOld(job, v, garageMap, pol, now, travel).Some?
    ensures var c := CandidateOld(job, v, garageMap, pol, now, travel).value;
      var pickupEta := travel(v.location, job.pickup).minutes;
      var arrival := ArrivalAt(now, pickupEta, PrimaryEta(job, garageMap, travel));
      var fb := FirstFallback(job, garageMap, now, pickupEta, travel);
      && (c.dropoffPlaceId == job.dropoffPlaceId
          || (|job.dropoffFallbackPlaceIds| > 0 && c.dropoffPlaceId == job.dropoffFallbackPlaceIds[0]))
      && (if PrimaryMisses(job, garageMap, now, arrival) && fb.Some? then
            && c.dropoffPlaceId == job.dropoffFallbackPlaceIds[0]
            && c.dropoffEtaMinutes == fb.value.eta
            && !c.willMissCutoff
          else
            && c.dropoffPlaceId == job.dropoffPlaceId
            && c.dropoffEtaMinutes == PrimaryEta(job, garageMap, travel)
            && c.willMissCutoff == PrimaryMisses(job, garageMap, now, arrival))
  {
    var pickupEta := travel(v.location, job.pickup).minutes;
    var arrival := ArrivalAt(now, pickupEta, PrimaryEta(job, garageMap, travel));
    var fb := FirstFallback(job, garageMap, now, pickupEta, travel);
    if PrimaryMisses(job, garageMap, now, arrival) && fb.Some? && job.dropoffFallbackPlaceIds[0] == job.dropoffPlaceId {
      FallbackNeverThePrimary(job, garageMap, now, pickupEta, travel);
      assert false;
    }
  }

  /**
    A fallback id equal to the primary's is never chosen: it is the same garage, so
    the same arrival that missed the primary's cutoff misses it again.
   */
  lemma FallbackNeverThePrimary(job: JobV1, garageMap: map<string, Garage>, now: int, pickupEta: int,
                                travel: TravelOracle)
    requires |job.dropoffFallbackPlaceIds| > 0 && job.dropoffFallbackPlaceIds[0] == job.dropoffPlaceId
    requires PrimaryMisses(job, garageMap, now, ArrivalAt(now, pickupEta, PrimaryEta(job, garageMap, travel)))
    ensures FirstFallback(job, garageMap, now, pickupEta, travel).None?
  {
  }

  /** The vehicle loop's body, reassigning `dropoffEta` and `chosenPlaceId`. */
  method EvaluateVehicleOld(job: JobV1, v: VehicleV1, garageMap: map<string, Garage>, pol: PoliciesOld,
                            now: int, travel: TravelOracle)
    returns (candidate: Option<CandidateV1>)
    ensures candidate == CandidateOld(job, v, garageMap, pol, now, travel)
  {
    var shiftEnd := v.shiftEnd.GetOr(now);
    if NoNewJob(shiftEnd, now, pol.noNewJobLastMinutes, v.allowOvertime) {
      return None;
    }
    var pickupEta := travel(v.location, job.pickup).minutes;
    var primaryGarage := Lookup(garageMap, job.dropoffPlaceId);
    var dropCoords := if primaryGarage.Some? then primaryGarage.value.coords else None;
    var dropoffEta := NO_ROUTE_MINUTES;
    if dropCoords.Some? {
      dropoffEta := travel(job.pickup, dropCoords.value).minutes;
    }
    var arrivalAtDrop := now + (pickupEta + dropoffEta + SERVICE_MINUTES) * MS_PER_MINUTE;
    var cutoffMins := if primaryGarage.Some? then primaryGarage.value.intakeCutoffMinutes.GetOr(DEFAULT_CUTOFF_MINUTES)
      else DEFAULT_CUTOFF_MINUTES;
    var willMissCutoff := false;
    if dropCoords.Some? {
      willMissCutoff := Misses(arrivalAtDrop, TodaysCutoff(now, primaryGarage.value.openingHours, cutoffMins));
    }
    var willExceedShift := arrivalAtDrop > shiftEnd + pol.maxOvertimeMinutes * MS_PER_MINUTE;
    var chosenPlaceId := job.dropoffPlaceId;
    if willMissCutoff && |job.dropoffFallbackPlaceIds| > 0 {
      var fbId := job.dropoffFallbackPlaceIds[0];
      var fb := Lookup(garageMap, fbId);
      if fb.Some? && fb.value.coords.Some? {
        var fbEta := travel(job.pickup, fb.value.coords.value).minutes;
        var fbArrival := now + (pickupEta + fbEta + SERVICE_MINUTES) * MS_PER_MINUTE;
        var fbCutoff := TodaysCutoff(now, fb.value.openingHours, fb.value.intakeCutoffMinutes.GetOr(DEFAULT_CUTOFF_MINUTES));
        if StillOpen(fbArrival, fbCutoff) {
          chosenPlaceId := fbId;
          dropoffEta := fbEta;
        }
      }
    }
    if dropoffEta >= NO_ROUTE_MINUTES {
      return None;
    }
    if willExceedShift {
      return None;
    }
    var primaryChosen := chosenPlaceId == job.dropoffPlaceId;
    candidate := Some(CandidateV1(job.id, v.id, chosenPlaceId, pickupEta, dropoffEta,
      if primaryChosen then willMissCutoff else false, willExceedShift,
      ReasonOld(pickupEta, dropoffEta, primaryChosen, willMissCutoff)));
  }

  function TotalEtaOld(c: CandidateV1): int {
    c.pickupEtaMinutes + c.dropoffEtaMinutes
  }

  function CandidatesOld(job: JobV1, vehicles: seq<VehicleV1>, garageMap: map<string, Garage>, pol: PoliciesOld,
                         now: int, travel: TravelOracle): seq<Option<CandidateV1>>
  {
    seq(|vehicles|, k requires 0 <= k < |vehicles| => CandidateOld(job, vehicles[k], garageMap, pol, now, travel))
  }

  /** The job's `best`: the first candidate with the lowest pickup plus drop-off ETA. */
  function PlanJobOld(job: JobV1, vehicles: seq<VehicleV1>, garageMap: map<string, Garage>, pol: PoliciesOld,
                      now: int, travel: TravelOracle): Option<CandidateV1>
  {
    FirstMin(CandidatesOld(job, vehicles, garageMap, pol, now, travel), TotalEtaOld)
  }

  /**
    A job is unassigned exactly when every vehicle is skipped; otherwise its candidate
    is that of the first vehicle with the lowest pickup plus drop-off ETA.
   */
  lemma PlanJobOldChoice(job: JobV1, vehicles: seq<VehicleV1>, garageMap: map<string, Garage>, pol: PoliciesOld,
                         now: int, travel: TravelOracle)
    ensures var none := forall k :: 0 <= k < |vehicles| ==> CandidateOld(job, vehicles[k], garageMap, pol, now, travel).None?;
      PlanJobOld(job, vehicles, garageMap, pol, now, travel).None? <==> none
    ensures var best := PlanJobOld(job, vehicles, garageMap, pol, now, travel);
      best.Some? ==> exists k ::
        && 0 <= k < |vehicles|
        && CandidateOld(job, vehicles[k], garageMap, pol, now, travel) == best
        && (forall j :: 0 <= j < |vehicles| && CandidateOld(job, vehicles[j], garageMap, pol, now, travel).Some?
              ==> TotalEtaOld(best.value) <= TotalEtaOld(CandidateOld(job, vehicles[j], garageMap, pol, now, travel).value))
        && (forall j :: 0 <= j < k && CandidateOld(job, vehicles[j], garageMap, pol, now, travel).Some?
              ==> TotalEtaOld(best.value) < TotalEtaOld(CandidateOld(job, vehicles[j], garageMap, pol, now, travel).value))
    ensures PlanJobOld(job, vehicles, garageMap, pol, now, travel).Some? ==>
      PlanJobOld(job, vehicles, garageMap, pol, now, travel).value.jobId == job.id
  {
    var cs := CandidatesOld(job, vehicles, garageMap, pol, now, travel);
    assert forall j :: 0 <= j < |vehicles| ==> cs[j] == CandidateOld(job, vehicles[j], garageMap, pol, now, travel);
    if FirstMin(cs, TotalEtaOld).Some? {
      var k := FirstMinIsFirstMinimum(cs, TotalEtaOld);
      assert cs[k] == CandidateOld(job, vehicles[k], garageMap, pol, now, travel);
    }
  }

  method AssignJobOld(job: JobV1, vehicles: seq<VehicleV1>, garageMap: map<string, Garage>, pol: PoliciesOld,
                      now: int, travel: TravelOracle)
    returns (best: Option<CandidateV1>)
    ensures best == PlanJobOld(job, vehicles, garageMap, pol, now, travel)
  {
    ghost var cs := CandidatesOld(job, vehicles, garageMap, pol, now, travel);
    best := None;
    for k := 0 to |vehicles|
      invariant best == FirstMin(cs[..k], TotalEtaOld)
    {
      assert cs[..k + 1][..k] == cs[..k];
      var candidate := EvaluateVehicleOld(job, vehicles[k], garageMap, pol, now, travel);
      if candidate.None? {
        continue;
      }
      var c := candidate.value;
      if best.None? || c.pickupEtaMinutes + c.dropoffEtaMinutes < best.value.pickupEtaMinutes + best.value.dropoffEtaMinutes {
        best := candidate;
      }
    }
    assert cs[..|vehicles|] == cs;
  }

  function OutcomesOld(jobs: seq<JobV1>, vehicles: seq<VehicleV1>, garageMap: map<string, Garage>, pol: PoliciesOld,
                       now: int, travel: TravelOracle): seq<Option<CandidateV1>>
  {
    seq(|jobs|, i requires 0 <= i < |jobs| => PlanJobOld(jobs[i], vehicles, garageMap, pol, now, travel))
  }

  function JobIdsOld(jobs: seq<JobV1>): seq<string> {
    seq(|jobs|, i requires 0 <= i < |jobs| => jobs[i].id)
  }

  /**
    `assignments` and `unassigned` of a run; `hours` is the hours service's reply, whose
    records are keyed by place id as `fetchHours` does.
   */
  function RunOld(now: int, jobs: seq<JobV1>, vehicles: seq<VehicleV1>, hours: seq<Garage>,
                  input: Option<PolicyInputOld>, travel: TravelOracle): (seq<CandidateV1>, seq<string>)
  {
    var outs := OutcomesOld(jobs, vehicles, GarageMap(hours), ResolveOld(input), now, travel);
    (Assigned(outs), Unassigned(outs, JobIdsOld(jobs)))
  }

  method PlanAllOld(jobs: seq<JobV1>, vehicles: seq<VehicleV1>, garageMap: map<string, Garage>, pol: PoliciesOld,
                    now: int, travel: TravelOracle)
    returns (assignments: seq<CandidateV1>, unassigned: seq<string>)
    ensures assignments == Assigned(OutcomesOld(jobs, vehicles, garageMap, pol, now, travel))
    ensures unassigned == Unassigned(OutcomesOld(jobs, vehicles, garageMap, pol, now, travel), JobIdsOld(jobs))
  {
    ghost var outs := OutcomesOld(jobs, vehicles, garageMap, pol, now, travel);
    ghost var ids := JobIdsOld(jobs);
    assignments, unassigned := [], [];
    for i := 0 to |jobs|
      invariant assignments == Assigned(outs[..i])
      invariant unassigned == Unassigned(outs[..i], ids[..i])
    {
      var best := AssignJobOld(jobs[i], vehicles, garageMap, pol, now, travel);
      assert outs[i] == best && ids[i] == jobs[i].id;
      PartitionStep(outs, ids, i);
      if best.Some? {
        assignments := assignments + [best.value];
      } else {
        unassigned := unassigned + [jobs[i].id];
      }
    }
    assert outs[..|jobs|] == outs;
    assert ids[..|jobs|] == ids;
  }

  /** The handler after parsing: policies, the garage map from the hours reply, the job loop. */
  method OptimizeOld(now: int, jobs: seq<JobV1>, vehicles: seq<VehicleV1>, hours: seq<Garage>,
                     input: Option<PolicyInputOld>, travel: TravelOracle)
    returns (assignments: seq<CandidateV1>, unassigned: seq<string>)
    ensures (assignments, unassigned) == RunOld(now, jobs, vehicles, hours, input, travel)
  {
    var policies := ResolveOld(input);
    var garageMap := BuildGarageMap(hours);
    assignments, unassigned := PlanAllOld(jobs, vehicles, garageMap, policies, now, travel);
  }

  function CandidateJobId(c: CandidateV1): string {
    c.jobId
  }

  /**
    With distinct job ids every job lands in exactly one list: its id is in `unassigned`
    exactly when no vehicle is a candidate, and an assignment is for it exactly when
    one is; the two lists together have one entry per job.
   */
  lemma RunOldPartition(now: int, jobs: seq<JobV1>, vehicles: seq<VehicleV1>, hours: seq<Garage>,
                        input: Option<PolicyInputOld>, travel: TravelOracle, i: int)
    requires 0 <= i < |jobs|
    requires forall j, k :: 0 <= j < k < |jobs| ==> jobs[j].id != jobs[k].id
    ensures |RunOld(now, jobs, vehicles, hours, input, travel).0| + |RunOld(now, jobs, vehicles, hours, input, travel).1|
      == |jobs|
    ensures var (assignments, unassigned) := RunOld(now, jobs, vehicles, hours, input, travel);
      var plan := PlanJobOld(jobs[i], vehicles, GarageMap(hours), ResolveOld(input), now, travel);
      && (jobs[i].id in unassigned <==> plan.None?)
      && ((exists c :: c in assignments && c.jobId == jobs[i].id) <==> plan.Some?)
  {
    var gm := GarageMap(hours);
    var pol := ResolveOld(input);
    var outs := OutcomesOld(jobs, vehicles, gm, pol, now, travel);
    var ids := JobIdsOld(jobs);
    PartitionComplete(outs, ids);
    forall j | 0 <= j < |outs| && outs[j].Some?
      ensures CandidateJobId(outs[j].value) == ids[j]
    {
      PlanJobOldChoice(jobs[j], vehicles, gm, pol, now, travel);
    }
    ExactlyOneList(outs, ids, CandidateJobId, i);
    assert outs[i] == PlanJobOld(jobs[i], vehicles, gm, pol, now, travel);
    if exists c :: c in Assigned(outs) && c.jobId == ids[i] {
      var c :| c in Assigned(outs) && c.jobId == ids[i];
      assert CandidateJobId(c) == ids[i];
    }
  }
}
