/**
  The demonstration optimizer (api/optimize.ts): fixed ETAs of 8 and 22 minutes, an
  intake cutoff fixed at 16:30 on the run's local date, and the first vehicle that
  passes the last-hour rule and the cutoff takes the job. The shift flag is recorded
  but never blocks.
 */
module OptimizePlain {
  import opened Options
  import opened Text
  import opened Clock
  import opened Fleet
  import opened Greedy
  import opened OptimizeOld

  const PICKUP_ETA_MINUTES: int := 8
  const DROPOFF_ETA_MINUTES: int := 22

  /** 30 minutes before 17:00 on `now`'s local date. */
  function PlainCutoff(now: int): int {
    AtLocalTime(now, 17, 0) - 30 * MS_PER_MINUTE
  }

  /** Arrival at the drop-off: 8 + 22 + 10 service minutes after `now`. */
  function PlainArrival(now: int): int {
    ArrivalAt(now, PICKUP_ETA_MINUTES, DROPOFF_ETA_MINUTES)
  }

  /** The arrival is 40 minutes after `now`; it misses the cutoff exactly after 15:50 local time. */
  lemma PlainCutoffWindow(now: int)
    ensures PlainArrival(now) == now + 40 * MS_PER_MINUTE
    ensures PlainCutoff(now) == StartOfDay(now) + (16 * 60 + 30) * MS_PER_MINUTE
    ensures PlainArrival(now) > PlainCutoff(now) <==> now - StartOfDay(now) > (15 * 60 + 50) * MS_PER_MINUTE
  {
  }

  const PLAIN_REASON: string := "Within shift and intake window. ETA ~" + IntToString(PICKUP_ETA_MINUTES + DROPOFF_ETA_MINUTES) + " mins."

  function CandidatePlain(job: JobV1, v: VehicleV1, pol: PoliciesOld, now: int): Option<CandidateV1> {
    var shiftEnd := v.shiftEnd.GetOr(now);
    if NoNewJob(shiftEnd, now, pol.noNewJobLastMinutes, v.allowOvertime) then None
    else
      var arrival := PlainArrival(now);
      var willMissCutoff := arrival > PlainCutoff(now);
      var willExceedShift := arrival > shiftEnd + pol.maxOvertimeMinutes * MS_PER_MINUTE;
      if willMissCutoff then None
      else Some(CandidateV1(job.id, v.id, job.dropoffPlaceId, PICKUP_ETA_MINUTES, DROPOFF_ETA_MINUTES,
                            false, willExceedShift, PLAIN_REASON))
  }

  /**
    A vehicle is a candidate exactly when it passes the last-hour rule (a missing shift
    end counting as now) and the fixed arrival meets the 16:30 cutoff; the shift flag
    is only recorded: it is the arrival past shift end plus overtime, and never blocks.
   */
  lemma CandidatePlainGates(job: JobV1, v: VehicleV1, pol: PoliciesOld, now: int)
    ensures CandidatePlain(job, v, pol, now).Some?
        <==> !NoNewJob(v.shiftEnd.GetOr(now), now, pol.noNewJobLastMinutes, v.allowOvertime)
             && PlainArrival(now) <= PlainCutoff(now)
    ensures CandidatePlain(job, v, pol, now).Some? ==>
      var c := CandidatePlain(job, v, pol, now).value;
      && c.jobId == job.id && c.vehicleId == v.id && c.dropoffPlaceId == job.dropoffPlaceId
      && c.pickupEtaMinutes == 8 && c.dropoffEtaMinutes == 22 && !c.willMissCutoff
      && (c.willExceedShift
          <==> now + 40 * MS_PER_MINUTE > v.shiftEnd.GetOr(now) + pol.maxOvertimeMinutes * MS_PER_MINUTE)
  {
  }

  function CandidatesPlain(job: JobV1, vehicles: seq<VehicleV1>, pol: PoliciesOld, now: int): seq<Option<CandidateV1>> {
    seq(|vehicles|, k requires 0 <= k < |vehicles| => CandidatePlain(job, vehicles[k], pol, now))
  }

  /** `if (!best) best = candidate`: the first candidate there is. */
  function PlanJobPlain(job: JobV1, vehicles: seq<VehicleV1>, pol: PoliciesOld, now: int): Option<CandidateV1> {
    FirstSome(CandidatesPlain(job, vehicles, pol, now))
  }

  /**
    A job is assigned to the first vehicle that passes both gates; it is unassigned
    exactly when none does.
   */
  lemma FirstFeasibleWins(job: JobV1, vehicles: seq<VehicleV1>, pol: PoliciesOld, now: int)
    ensures var none := forall k :: 0 <= k < |vehicles| ==> CandidatePlain(job, vehicles[k], pol, now).None?;
      PlanJobPlain(job, vehicles, pol, now).None? <==> none
    ensures PlanJobPlain(job, vehicles, pol, now).Some? ==> exists k ::
      && 0 <= k < |vehicles|
      && CandidatePlain(job, vehicles[k], pol, now) == PlanJobPlain(job, vehicles, pol, now)
      && forall j :: 0 <= j < k ==> CandidatePlain(job, vehicles[j], pol, now).None?
  {
    var cs := CandidatesPlain(job, vehicles, pol, now);
    assert forall j :: 0 <= j < |vehicles| ==> cs[j] == CandidatePlain(job, vehicles[j], pol, now);
    FirstSomeIsFirst(cs);
  }

  /** The vehicle loop for one job. */
  method AssignJobPlain(job: JobV1, vehicles: seq<VehicleV1>, pol: PoliciesOld, now: int)
    returns (best: Option<CandidateV1>)
    ensures best == PlanJobPlain(job, vehicles, pol, now)
  {
    ghost var cs := CandidatesPlain(job, vehicles, pol, now);
    best := None;
    for k := 0 to |vehicles|
      invariant best == FirstSome(cs[..k])
    {
      assert cs[..k + 1][..k] == cs[..k];
      var v := vehicles[k];
      var shiftEnd := v.shiftEnd.GetOr(now);
      if NoNewJob(shiftEnd, now, pol.noNewJobLastMinutes, v.allowOvertime) {
        continue;
      }
      var close := AtLocalTime(now, 17, 0);
      var cutoff := close - 30 * MS_PER_MINUTE;
      var arrivalAtDrop := now + (PICKUP_ETA_MINUTES + DROPOFF_ETA_MINUTES + 10) * MS_PER_MINUTE;
      var willMissCutoff := arrivalAtDrop > cutoff;
      var willExceedShift := arrivalAtDrop > shiftEnd + pol.maxOvertimeMinutes * MS_PER_MINUTE;
      if willMissCutoff {
        continue;
      }
      var candidate := CandidateV1(job.id, v.id, job.dropoffPlaceId, PICKUP_ETA_MINUTES, DROPOFF_ETA_MINUTES,
                                   willMissCutoff, willExceedShift, PLAIN_REASON);
      if best.None? {
        best := Some(candidate);
      }
    }
    assert cs[..|vehicles|] == cs;
  }

  function OutcomesPlain(jobs: seq<JobV1>, vehicles: seq<VehicleV1>, pol: PoliciesOld, now: int): seq<Option<CandidateV1>> {
    seq(|jobs|, i requires 0 <= i < |jobs| => PlanJobPlain(jobs[i], vehicles, pol, now))
  }

  /** `assignments` and `unassigned` of a run. */
  function RunPlain(now: int, jobs: seq<JobV1>, vehicles: seq<VehicleV1>, input: Option<PolicyInputOld>)
    : (seq<CandidateV1>, seq<string>)
  {
    var outs := OutcomesPlain(jobs, vehicles, ResolveOld(input), now);
    (Assigned(outs), Unassigned(outs, JobIdsOld(jobs)))
  }

  method OptimizePlain(now: int, jobs: seq<JobV1>, vehicles: seq<VehicleV1>, input: Option<PolicyInputOld>)
    returns (assignments: seq<CandidateV1>, unassigned: seq<string>)
    ensures (assignments, unassigned) == RunPlain(now, jobs, vehicles, input)
  {
    var policies := ResolveOld(input);
    ghost var outs := OutcomesPlain(jobs, vehicles, policies, now);
    ghost var ids := JobIdsOld(jobs);
    assignments, unassigned := [], [];
    for i := 0 to |jobs|
      invariant assignments == Assigned(outs[..i])
      invariant unassigned == Unassigned(outs[..i], ids[..i])
    {
      var best := AssignJobPlain(jobs[i], vehicles, policies, now);
      assert outs[i] == best && ids[i] == jobs[i].id;
      PartitionStep(outs, ids, i);
      if best.Some? {
        assignments := assignments + [best.value];
      } else {
        unassigned := unassigned + [jobs[i].id];
      }
    }
    assert outs[..|jobs|] == outs;
    assert ids[..|jobs|] == ids;
  }

  /** After 15:50 local time nothing is assigned: every job id lands in `unassigned`, in order. */
  lemma LateRunAssignsNothing(now: int, jobs: seq<JobV1>, vehicles: seq<VehicleV1>, input: Option<PolicyInputOld>)
    requires now - StartOfDay(now) > (15 * 60 + 50) * MS_PER_MINUTE
    ensures RunPlain(now, jobs, vehicles, input).0 == []
    ensures RunPlain(now, jobs, vehicles, input).1 == seq(|jobs|, i requires 0 <= i < |jobs| => jobs[i].id)
  {
    PlainCutoffWindow(now);
    var pol := ResolveOld(input);
    var outs := OutcomesPlain(jobs, vehicles, pol, now);
    forall i | 0 <= i < |outs|
      ensures outs[i].None?
    {
      FirstFeasibleWins(jobs[i], vehicles, pol, now);
    }
    NothingAssigned(outs, JobIdsOld(jobs));
  }

  function PlainJobId(c: CandidateV1): string {
    c.jobId
  }

  /**
    With distinct job ids every job lands in exactly one list, and the lists together
    have one entry per job.
   */
  lemma RunPlainPartition(now: int, jobs: seq<JobV1>, vehicles: seq<VehicleV1>, input: Option<PolicyInputOld>, i: int)
    requires 0 <= i < |jobs|
    requires forall j, k :: 0 <= j < k < |jobs| ==> jobs[j].id != jobs[k].id
    ensures |RunPlain(now, jobs, vehicles, input).0| + |RunPlain(now, jobs, vehicles, input).1| == |jobs|
    ensures var (assignments, unassigned) := RunPlain(now, jobs, vehicles, input);
      var plan := PlanJobPlain(jobs[i], vehicles, ResolveOld(input), now);
      && (jobs[i].id in unassigned <==> plan.None?)
      && ((exists c :: c in assignments && c.jobId == jobs[i].id) <==> plan.Some?)
  {
    var pol := ResolveOld(input);
    var outs := OutcomesPlain(jobs, vehicles, pol, now);
    var ids := JobIdsOld(jobs);
    PartitionComplete(outs, ids);
    forall j | 0 <= j < |outs| && outs[j].Some?
      ensures PlainJobId(outs[j].value) == ids[j]
    {
      FirstFeasibleWins(jobs[j], vehicles, pol, now);
    }
    ExactlyOneList(outs, ids, PlainJobId, i);
    assert outs[i] == PlanJobPlain(jobs[i], vehicles, pol, now);
    if exists c :: c in Assigned(outs) && c.jobId == ids[i] {
      var c :| c in Assigned(outs) && c.jobId == ids[i];
      assert PlainJobId(c) == ids[i];
    }
  }
}
