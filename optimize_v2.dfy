/**
  The optimize-v2 planner (api/optimize-v2.ts): job by job it picks a drop site through
  the preferred -> secondary -> home cascade, keeps the vehicles able to do the job, and
  lets every vehicle that passes the shift and first-leg gates propose a route, direct
  or through a meet-and-swap midpoint; the proposal with the lowest total ETA wins.
  The routing service is the oracle `travel`; the run's clock is `now`.
 */
module OptimizeV2 {
  import opened Options
  import opened Clock
  import opened Fleet
  import opened Intake
  import opened Greedy

  datatype JobV2 = JobV2(
    id: string,
    pickup: Coord,
    issueType: IssueType,
    preferredDropPlaceId: Option<string>,
    secondaryDropPlaceId: Option<string>,
    homeFallback: Coord)

  /**
    One field of the caller's `policies` after `{ ...defaults, ...body.policies }`:
    not mentioned (the default stays), mentioned as null/undefined, or given a value.
   */
  datatype Field<T> = Absent | Nullish | Given(value: T)

  datatype PolicyInput = PolicyInput(
    maxLegMiles: Field<real>,
    noNewJobLastMinutes: Field<int>,
    maxOvertimeMinutes: Field<int>,
    serviceMinutes: Field<int>,
    intakeCutoffMinutesBeforeClose: Field<int>,
    enableMeetAndSwap: Field<bool>)

  /** The policy values the loop actually reads. */
  datatype Policies = Policies(
    maxLegMiles: real,
    noNewJobLastMinutes: int,
    maxOvertimeMinutes: int,
    serviceMinutes: int,
    intakeCutoffMinutesBeforeClose: int,
    enableMeetAndSwap: bool)

  const NO_POLICIES: PolicyInput := PolicyInput(Absent, Absent, Absent, Absent, Absent, Absent)
  const DEFAULT_POLICIES: Policies := Policies(30.0, 60, 0, 10, 30, true)

  /** A numeric field read as `policies.f ?? d`, `d` being also the default the spread starts from. */
  function NumberOr<T>(f: Field<T>, d: T): T {
    if f.Given? then f.value else d
  }

  /** `enableMeetAndSwap` is read without `??`: a null/undefined field is falsy. */
  function FlagOr(f: Field<bool>, d: bool): bool {
    match f
    case Absent => d
    case Nullish => false
    case Given(b) => b
  }

  function ResolvePolicies(p: PolicyInput): Policies {
    Policies(
      NumberOr(p.maxLegMiles, 30.0),
      NumberOr(p.noNewJobLastMinutes, 60),
      NumberOr(p.maxOvertimeMinutes, 0),
      NumberOr(p.serviceMinutes, 10),
      NumberOr(p.intakeCutoffMinutesBeforeClose, 30),
      FlagOr(p.enableMeetAndSwap, true))
  }

  /**
    Without caller policies the defaults are 30 miles, 60, 0, 10 and 30 minutes and swaps
    on. A numeric field given as null/undefined still reads as its default, but a
    null/undefined `enableMeetAndSwap` switches swaps off.
   */
  lemma PolicyResolution(p: PolicyInput)
    ensures ResolvePolicies(NO_POLICIES) == DEFAULT_POLICIES
    ensures !p.maxLegMiles.Given? ==> ResolvePolicies(p).maxLegMiles == 30.0
    ensures !p.noNewJobLastMinutes.Given? ==> ResolvePolicies(p).noNewJobLastMinutes == 60
    ensures !p.maxOvertimeMinutes.Given? ==> ResolvePolicies(p).maxOvertimeMinutes == 0
    ensures !p.serviceMinutes.Given? ==> ResolvePolicies(p).serviceMinutes == 10
    ensures !p.intakeCutoffMinutesBeforeClose.Given? ==> ResolvePolicies(p).intakeCutoffMinutesBeforeClose == 30
    ensures ResolvePolicies(p).enableMeetAndSwap
        <==> p.enableMeetAndSwap == Absent || p.enableMeetAndSwap == Given(true)
  {
  }

  // ------------------------------------------------------------ drop site

  datatype DropDecision = Preferred | Secondary | HomeFallback

  datatype DropChoice = DropChoice(drop: Coord, decision: DropDecision)

  /** `id ? garageMap[id] : undefined`: an empty id is falsy, an unknown id is undefined. */
  function LookupGarage(garageMap: map<string, Garage>, id: Option<string>): Option<Garage> {
    if id.Some? && id.value != "" && id.value in garageMap then Some(garageMap[id.value]) else None
  }

  /** `garage.intakeCutoffMinutesBeforeClose ?? policies.intakeCutoffMinutesBeforeClose ?? 30` */
  function CutoffMinutes(g: Garage, pol: Policies): int {
    g.intakeCutoffMinutes.GetOr(pol.intakeCutoffMinutesBeforeClose)
  }

  /** The test the cascade applies to one tier: known, with coordinates, and still taking drop-offs. */
  predicate TakesDrop(g: Option<Garage>, pol: Policies, now: int) {
    && g.Some?
    && g.value.coords.Some?
    && StillOpen(now, TodaysCutoff(now, g.value.openingHours, CutoffMinutes(g.value, pol)))
  }

  function SelectDrop(job: JobV2, garageMap: map<string, Garage>, pol: Policies, now: int): DropChoice {
    var preferred := LookupGarage(garageMap, job.preferredDropPlaceId);
    var secondary := LookupGarage(garageMap, job.secondaryDropPlaceId);
    if TakesDrop(preferred, pol, now) then DropChoice(preferred.value.coords.value, Preferred)
    else if TakesDrop(secondary, pol, now) then DropChoice(secondary.value.coords.value, Secondary)
    else DropChoice(job.homeFallback, HomeFallback)
  }

  /**
    The drop site is a strict cascade: the preferred garage when it takes the drop,
    else the secondary one, else the customer's home; the site is that tier's
    coordinates. Each garage's cutoff uses its own override, else the policy value.
   */
  lemma DropCascade(job: JobV2, garageMap: map<string, Garage>, pol: Policies, now: int)
    ensures var c := SelectDrop(job, garageMap, pol, now);
      var preferred := LookupGarage(garageMap, job.preferredDropPlaceId);
      var secondary := LookupGarage(garageMap, job.secondaryDropPlaceId);
      && (c.decision == Preferred <==> TakesDrop(preferred, pol, now))
      && (c.decision == Secondary <==> !TakesDrop(preferred, pol, now) && TakesDrop(secondary, pol, now))
      && (c.decision == HomeFallback <==> !TakesDrop(preferred, pol, now) && !TakesDrop(secondary, pol, now))
      && (c.decision == Preferred ==> c.drop == preferred.value.coords.value)
      && (c.decision == Secondary ==> c.drop == secondary.value.coords.value)
      && (c.decision == HomeFallback ==> c.drop == job.homeFallback)
    ensures forall g: Garage :: g.intakeCutoffMinutes.Some? ==> CutoffMinutes(g, pol) == g.intakeCutoffMinutes.value
    ensures forall g: Garage :: g.intakeCutoffMinutes.None? ==> CutoffMinutes(g, pol) == pol.intakeCutoffMinutesBeforeClose
  {
  }

  /** The handler's cascade over `drop` and `dropDecision`. */
  method ChooseDrop(job: JobV2, garageMap: map<string, Garage>, pol: Policies, now: int)
    returns (drop: Coord, dropDecision: DropDecision)
    ensures DropChoice(drop, dropDecision) == SelectDrop(job, garageMap, pol, now)
  {
    var chosen: Option<Coord> := None;
    dropDecision := HomeFallback;
    var preferred := LookupGarage(garageMap, job.preferredDropPlaceId);
    var secondary := LookupGarage(garageMap, job.secondaryDropPlaceId);
    if preferred.Some? && preferred.value.coords.Some? {
      var cutoff := TodaysCutoff(now, preferred.value.openingHours, CutoffMinutes(preferred.value, pol));
      if StillOpen(now, cutoff) {
        chosen := preferred.value.coords;
        dropDecision := Preferred;
      }
    }
    if chosen.None? && secondary.Some? && secondary.value.coords.Some? {
      var cutoff := TodaysCutoff(now, secondary.value.openingHours, CutoffMinutes(secondary.value, pol));
      if StillOpen(now, cutoff) {
        chosen := secondary.value.coords;
        dropDecision := Secondary;
      }
    }
    if chosen.None? {
      chosen := Some(job.homeFallback);
      dropDecision := HomeFallback;
    }
    drop := chosen.value;
  }

  // ------------------------------------------------------------ eligibility

  /** The vehicle types able to recover a car. */
  predicate RecoveryCapable(t: VehicleType) {
    t == VanTow || t == SmallRamp || t == HiabGrabber || t == LorryRecovery
  }

  predicate CanTake(issue: IssueType, t: VehicleType) {
    issue == Repair || RecoveryCapable(t)
  }

  /** `vehicles.filter(...)`: a repair may go to any vehicle, anything else needs a recovery vehicle. */
  function Eligible(issue: IssueType, vs: seq<Vehicle>): (r: seq<Vehicle>)
    ensures forall v :: v in r <==> v in vs && CanTake(issue, v.vtype)
    ensures issue == Repair ==> r == vs
    decreases |vs|
  {
    if vs == [] then []
    else
      var n := |vs| - 1;
      assert vs == vs[..n] + [vs[n]];
      Eligible(issue, vs[..n]) + (if CanTake(issue, vs[n].vtype) then [vs[n]] else [])
  }

  /** The filter keeps input order: it distributes over concatenation. */
  lemma {:induction false} EligibleAppend(issue: IssueType, a: seq<Vehicle>, b: seq<Vehicle>)
    ensures Eligible(issue, a + b) == Eligible(issue, a) + Eligible(issue, b)
    decreases |b|
  {
    if b == [] {
      assert a + b == a;
    } else {
      var n := |b| - 1;
      assert (a + b)[..|a + b| - 1] == a + b[..n];
      EligibleAppend(issue, a, b[..n]);
    }
  }

  lemma EligibleOne(issue: IssueType, v: Vehicle)
    ensures Eligible(issue, [v]) == if CanTake(issue, v.vtype) then [v] else []
  {
    assert [v][..0] == [];
  }

  // ------------------------------------------------------------ routes

  datatype RouteLeg = RouteLeg(from: Coord, to: Coord, miles: real, etaMinutes: int, vehicleId: string, note: string)

  datatype AssignmentV2 = AssignmentV2(
    jobId: string,
    legs: seq<RouteLeg>,
    dropDecision: DropDecision,
    willExceedShift: bool,
    reason: string)

  const HOME_FALLBACK_REASON: string := "Garage cut-off passed; defaulting to customer home."
  const SWAP_REASON: string := "Meet-and-swap planned to keep legs \U{2264} allowed miles."
  const DIRECT_REASON: string := "Direct within per-leg miles limit."

  /** The rendezvous point: the coordinate average of pickup and drop. */
  function Midpoint(a: Coord, b: Coord): Coord {
    Coord((a.lat + b.lat) / 2.0, (a.lng + b.lng) / 2.0)
  }

  /** `best2`: a second vehicle with its minutes and miles to the rendezvous. */
  datatype SecondPick = SecondPick(veh: Vehicle, toMidMin: int, toMidMiles: real)

  /** What vehicle `w` offers as the second vehicle of `v`'s swap; its shift is not looked at. */
  function SecondOption(v: Vehicle, w: Vehicle, mid: Coord, maxMiles: real, travel: TravelOracle): Option<SecondPick> {
    if w.id == v.id then None
    else
      var t := travel(w.location, mid);
      if t.miles <= maxMiles then Some(SecondPick(w, t.minutes, t.miles)) else None
  }

  function SecondOptions(eligible: seq<Vehicle>, v: Vehicle, mid: Coord, maxMiles: real, travel: TravelOracle)
    : seq<Option<SecondPick>>
  {
    seq(|eligible|, k requires 0 <= k < |eligible| => SecondOption(v, eligible[k], mid, maxMiles, travel))
  }

  function ToMid(p: SecondPick): int {
    p.toMidMin
  }

  /** The inner loop's `best2`. */
  function SecondVehicle(eligible: seq<Vehicle>, v: Vehicle, mid: Coord, maxMiles: real, travel: TravelOracle)
    : Option<SecondPick>
  {
    FirstMin(SecondOptions(eligible, v, mid, maxMiles, travel), ToMid)
  }

  /**
    The second vehicle is the first eligible vehicle other than `v`, within `maxMiles`
    of the midpoint, with the lowest minutes to it; there is none exactly when no
    other eligible vehicle is within `maxMiles` of it. Its shift plays no part.
   */
  lemma SecondVehicleChoice(eligible: seq<Vehicle>, v: Vehicle, mid: Coord, maxMiles: real, travel: TravelOracle)
    ensures SecondVehicle(eligible, v, mid, maxMiles, travel).None?
        <==> forall j :: 0 <= j < |eligible| && eligible[j].id != v.id ==> travel(eligible[j].location, mid).miles > maxMiles
    ensures SecondVehicle(eligible, v, mid, maxMiles, travel).Some? ==>
      var p := SecondVehicle(eligible, v, mid, maxMiles, travel).value;
      exists k ::
        && 0 <= k < |eligible|
        && p == SecondPick(eligible[k], travel(eligible[k].location, mid).minutes, travel(eligible[k].location, mid).miles)
        && eligible[k].id != v.id && p.toMidMiles <= maxMiles
        && (forall j :: 0 <= j < |eligible| && eligible[j].id != v.id && travel(eligible[j].location, mid).miles <= maxMiles
              ==> p.toMidMin <= travel(eligible[j].location, mid).minutes)
        && (forall j :: 0 <= j < k && eligible[j].id != v.id && travel(eligible[j].location, mid).miles <= maxMiles
              ==> p.toMidMin < travel(eligible[j].location, mid).minutes)
  {
    var opts := SecondOptions(eligible, v, mid, maxMiles, travel);
    assert forall j :: 0 <= j < |eligible| ==> opts[j] == SecondOption(v, eligible[j], mid, maxMiles, travel);
    if SecondVehicle(eligible, v, mid, maxMiles, travel).Some? {
      var k := FirstMinIsFirstMinimum(opts, ToMid);
      assert opts[k] == SecondOption(v, eligible[k], mid, maxMiles, travel);
    }
  }

  /** The inner `for (const v2 of eligible)` loop. */
  method PickSecondVehicle(eligible: seq<Vehicle>, v: Vehicle, mid: Coord, maxMiles: real, travel: TravelOracle)
    returns (best2: Option<SecondPick>)
    ensures best2 == SecondVehicle(eligible, v, mid, maxMiles, travel)
  {
    ghost var opts := SecondOptions(eligible, v, mid, maxMiles, travel);
    best2 := None;
    for k := 0 to |eligible|
      invariant best2 == FirstMin(opts[..k], ToMid)
    {
      assert opts[..k + 1][..k] == opts[..k];
      var v2 := eligible[k];
      if v2.id == v.id {
        continue;
      }
      var mA := travel(v2.location, mid);
      var toMidMin := mA.minutes;
      var toMidMiles := mA.miles;
      if toMidMiles <= maxMiles {
        if best2.None? || toMidMin < best2.value.toMidMin {
          best2 := Some(SecondPick(v2, toMidMin, toMidMiles));
        }
      }
    }
    assert opts[..|eligible|] == opts;
  }

  function DirectLegs(v: Vehicle, pickup: Coord, drop: Coord, leg1: Travel, leg2: Travel): seq<RouteLeg> {
    [ RouteLeg(v.location, pickup, leg1.miles, leg1.minutes, v.id, "to pickup"),
      RouteLeg(pickup, drop, leg2.miles, leg2.minutes, v.id, "pickup to drop") ]
  }

  function SwapLegs(v: Vehicle, pickup: Coord, drop: Coord, leg1: Travel, mid: Coord, p: SecondPick,
                    toMid: Travel, fromMid: Travel): seq<RouteLeg>
  {
    [ RouteLeg(v.location, pickup, leg1.miles, leg1.minutes, v.id, "to pickup"),
      RouteLeg(pickup, mid, toMid.miles, toMid.minutes, v.id, "to rendezvous"),
      RouteLeg(p.veh.location, mid, p.toMidMiles, p.toMidMin, p.veh.id, "second vehicle to rendezvous"),
      RouteLeg(mid, drop, fromMid.miles, fromMid.minutes, p.veh.id, "to drop (swap)") ]
  }

  /** `legs` as the handler leaves it: direct, swap, or still `[]` when a needed swap failed. */
  function RouteLegs(pickup: Coord, drop: Coord, eligible: seq<Vehicle>, v: Vehicle, pol: Policies,
                     travel: TravelOracle): seq<RouteLeg>
  {
    var leg1 := travel(v.location, pickup);
    var leg2 := travel(pickup, drop);
    var maxMiles := pol.maxLegMiles;
    if !(leg1.miles > maxMiles || leg2.miles > maxMiles) then DirectLegs(v, pickup, drop, leg1, leg2)
    else if !pol.enableMeetAndSwap then []
    else
      var mid := Midpoint(pickup, drop);
      var best2 := SecondVehicle(eligible, v, mid, maxMiles, travel);
      if best2.None? then []
      else
        var toMid := travel(pickup, mid);
        var fromMid := travel(mid, drop);
        if toMid.miles <= maxMiles && fromMid.miles <= maxMiles then
          SwapLegs(v, pickup, drop, leg1, mid, best2.value, toMid, fromMid)
        else []
  }

  /** `new Date(now + totalMin * 60000) > new Date(shiftEnd + maxOvertime * 60000)` */
  function WillExceedShift(now: int, shiftEnd: int, pol: Policies, leg1Min: int, leg2Min: int): bool {
    now + (leg1Min + pol.serviceMinutes + leg2Min) * MS_PER_MINUTE > shiftEnd + pol.maxOvertimeMinutes * MS_PER_MINUTE
  }

  function Reason(decision: DropDecision, enableMeetAndSwap: bool, legCount: int): string {
    if decision == HomeFallback then HOME_FALLBACK_REASON
    else if enableMeetAndSwap && legCount > 2 then SWAP_REASON
    else DIRECT_REASON
  }

  /** Vehicle `v`'s proposal for the job, or None when the shift or first-leg gate skips it. */
  function Candidate(job: JobV2, drop: Coord, decision: DropDecision, eligible: seq<Vehicle>, v: Vehicle,
                     pol: Policies, now: int, travel: TravelOracle): Option<AssignmentV2>
  {
    var leg1 := travel(v.location, job.pickup);
    if NoNewJob(v.shiftEnd, now, pol.noNewJobLastMinutes, v.allowOvertime) || leg1.miles > pol.maxLegMiles then None
    else
      var leg2 := travel(job.pickup, drop);
      var legs := RouteLegs(job.pickup, drop, eligible, v, pol, travel);
      Some(AssignmentV2(job.id, legs, decision,
        WillExceedShift(now, v.shiftEnd, pol, leg1.minutes, leg2.minutes),
        Reason(decision, pol.enableMeetAndSwap, |legs|)))
  }

  /**
    A vehicle proposes a route exactly when it passes both gates: more than
    `noNewJobLastMinutes` of its shift left (or overtime allowed), and at most
    `maxLegMiles` to the pickup. The proposal is for this job and this drop decision.
   */
  lemma CandidateGates(job: JobV2, drop: Coord, decision: DropDecision, eligible: seq<Vehicle>, v: Vehicle,
                       pol: Policies, now: int, travel: TravelOracle)
    ensures Candidate(job, drop, decision, eligible, v, pol, now, travel).Some?
        <==> !NoNewJob(v.shiftEnd, now, pol.noNewJobLastMinutes, v.allowOvertime)
             && travel(v.location, job.pickup).miles <= pol.maxLegMiles
    ensures Candidate(job, drop, decision, eligible, v, pol, now, travel).Some? ==>
      var a := Candidate(job, drop, decision, eligible, v, pol, now, travel).value;
      a.jobId == job.id && a.dropDecision == decision
  {
  }

  /**
    Every proposed route has 0, 2 or 4 legs; it is 2 exactly when pickup to drop is
    within `maxLegMiles`; every leg is within `maxLegMiles`; a non-empty route starts
    with `v` driving to the pickup and its last leg ends at the drop.
   */
  lemma RouteShape(job: JobV2, drop: Coord, decision: DropDecision, eligible: seq<Vehicle>, v: Vehicle,
                   pol: Policies, now: int, travel: TravelOracle)
    requires Candidate(job, drop, decision, eligible, v, pol, now, travel).Some?
    ensures var legs := Candidate(job, drop, decision, eligible, v, pol, now, travel).value.legs;
      && (|legs| == 0 || |legs| == 2 || |legs| == 4)
      && (|legs| == 2 <==> travel(job.pickup, drop).miles <= pol.maxLegMiles)
      && (forall l :: l in legs ==> l.miles <= pol.maxLegMiles)
      && (legs != [] ==> legs[0].from == v.location && legs[0].to == job.pickup && legs[0].vehicleId == v.id)
      && (legs != [] ==> legs[|legs| - 1].to == drop)
  {
    var mid := Midpoint(job.pickup, drop);
    SecondVehicleChoice(eligible, v, mid, pol.maxLegMiles, travel);
  }

  /** Within the mileage limit the route is the direct one, both legs driven by `v`. */
  lemma DirectRoute(job: JobV2, drop: Coord, decision: DropDecision, eligible: seq<Vehicle>, v: Vehicle,
                    pol: Policies, now: int, travel: TravelOracle)
    requires Candidate(job, drop, decision, eligible, v, pol, now, travel).Some?
    requires travel(job.pickup, drop).miles <= pol.maxLegMiles
    ensures Candidate(job, drop, decision, eligible, v, pol, now, travel).value.legs
      == [ RouteLeg(v.location, job.pickup, travel(v.location, job.pickup).miles,
                    travel(v.location, job.pickup).minutes, v.id, "to pickup"),
           RouteLeg(job.pickup, drop, travel(job.pickup, drop).miles,
                    travel(job.pickup, drop).minutes, v.id, "pickup to drop") ]
  {
  }

  /**
    Beyond the limit a route exists only through a swap: swaps must be enabled, a
    second vehicle must exist, and pickup to midpoint and midpoint to drop must both be
    within the limit. Otherwise the proposal stands with an empty route. A swap route
    is `v` to the pickup and on to the midpoint, then the second vehicle to the
    midpoint and on to the drop.
   */
  lemma SwapRoute(job: JobV2, drop: Coord, decision: DropDecision, eligible: seq<Vehicle>, v: Vehicle,
                  pol: Policies, now: int, travel: TravelOracle)
    requires Candidate(job, drop, decision, eligible, v, pol, now, travel).Some?
    requires travel(job.pickup, drop).miles > pol.maxLegMiles
    ensures var legs := Candidate(job, drop, decision, eligible, v, pol, now, travel).value.legs;
      var mid := Midpoint(job.pickup, drop);
      var best2 := SecondVehicle(eligible, v, mid, pol.maxLegMiles, travel);
      && (legs != [] <==> (pol.enableMeetAndSwap && best2.Some?
            && travel(job.pickup, mid).miles <= pol.maxLegMiles && travel(mid, drop).miles <= pol.maxLegMiles))
      && (legs != [] ==>
            && |legs| == 4
            && legs[0].vehicleId == v.id && legs[1].vehicleId == v.id
            && legs[2].vehicleId == best2.value.veh.id && legs[3].vehicleId == best2.value.veh.id
            && best2.value.veh.id != v.id && best2.value.veh in eligible
            && legs[1].from == job.pickup && legs[1].to == mid
            && legs[2].from == best2.value.veh.location && legs[2].to == mid
            && legs[3].from == mid && legs[3].to == drop
            && legs[2].etaMinutes == best2.value.toMidMin)
  {
    var mid := Midpoint(job.pickup, drop);
    SecondVehicleChoice(eligible, v, mid, pol.maxLegMiles, travel);
  }

  /**
    The shift flag is computed from the direct minutes, leg 1 plus service plus pickup
    to drop, whatever route was planned, so it is the same whichever vehicles could
    serve as the second vehicle.
   */
  lemma ShiftFlagFromDirectMinutes(job: JobV2, drop: Coord, decision: DropDecision, eligible: seq<Vehicle>,
                                   other: seq<Vehicle>, v: Vehicle, pol: Policies, now: int, travel: TravelOracle)
    requires Candidate(job, drop, decision, eligible, v, pol, now, travel).Some?
    ensures Candidate(job, drop, decision, eligible, v, pol, now, travel).value.willExceedShift
        <==> now + (travel(v.location, job.pickup).minutes + pol.serviceMinutes + travel(job.pickup, drop).minutes)
               * MS_PER_MINUTE > v.shiftEnd + pol.maxOvertimeMinutes * MS_PER_MINUTE
    ensures Candidate(job, drop, decision, other, v, pol, now, travel).Some?
    ensures Candidate(job, drop, decision, other, v, pol, now, travel).value.willExceedShift
         == Candidate(job, drop, decision, eligible, v, pol, now, travel).value.willExceedShift
  {
  }

  /**
    The home-fallback text wins over the swap text, which wins over the direct text:
    the swap text is given exactly to the 4-leg routes to a garage.
   */
  lemma ReasonChoice(job: JobV2, drop: Coord, decision: DropDecision, eligible: seq<Vehicle>, v: Vehicle,
                     pol: Policies, now: int, travel: TravelOracle)
    requires Candidate(job, drop, decision, eligible, v, pol, now, travel).Some?
    ensures var a := Candidate(job, drop, decision, eligible, v, pol, now, travel).value;
      a.reason == if decision == HomeFallback then HOME_FALLBACK_REASON
                  else if |a.legs| == 4 then SWAP_REASON
                  else DIRECT_REASON
  {
    RouteShape(job, drop, decision, eligible, v, pol, now, travel);
    var a := Candidate(job, drop, decision, eligible, v, pol, now, travel).value;
    if |a.legs| == 4 && travel(job.pickup, drop).miles > pol.maxLegMiles {
      SwapRoute(job, drop, decision, eligible, v, pol, now, travel);
    }
  }

  /** The method of the vehicle loop's body: gates, legs, shift flag and reason. */
  method EvaluateVehicle(job: JobV2, drop: Coord, decision: DropDecision, eligible: seq<Vehicle>, v: Vehicle,
                         pol: Policies, now: int, travel: TravelOracle)
    returns (assign: Option<AssignmentV2>)
    ensures assign == Candidate(job, drop, decision, eligible, v, pol, now, travel)
  {
    if NoNewJob(v.shiftEnd, now, pol.noNewJobLastMinutes, v.allowOvertime) {
      return None;
    }
    var m1 := travel(v.location, job.pickup);
    var leg1Min, leg1Miles := m1.minutes, m1.miles;
    if leg1Miles > pol.maxLegMiles {
      return None;
    }
    var m2 := travel(job.pickup, drop);
    var leg2Min, leg2Miles := m2.minutes, m2.miles;
    var maxMiles := pol.maxLegMiles;
    var needsSwap := leg1Miles > maxMiles || leg2Miles > maxMiles;
    var legs: seq<RouteLeg> := [];
    if !needsSwap {
      legs := [ RouteLeg(v.location, job.pickup, leg1Miles, leg1Min, v.id, "to pickup"),
                RouteLeg(job.pickup, drop, leg2Miles, leg2Min, v.id, "pickup to drop") ];
    } else if pol.enableMeetAndSwap {
      var mid := Coord((job.pickup.lat + drop.lat) / 2.0, (job.pickup.lng + drop.lng) / 2.0);
      var best2 := PickSecondVehicle(eligible, v, mid, maxMiles, travel);
      if best2.Some? {
        var v2 := best2.value.veh;
        var mB := travel(job.pickup, mid);
        var mC := travel(mid, drop);
        if mB.miles <= maxMiles && mC.miles <= maxMiles {
          legs := [ RouteLeg(v.location, job.pickup, leg1Miles, leg1Min, v.id, "to pickup"),
                    RouteLeg(job.pickup, mid, mB.miles, mB.minutes, v.id, "to rendezvous"),
                    RouteLeg(v2.location, mid, best2.value.toMidMiles, best2.value.toMidMin, v2.id,
                             "second vehicle to rendezvous"),
                    RouteLeg(mid, drop, mC.miles, mC.minutes, v2.id, "to drop (swap)") ];
        }
      }
    }
    var totalMin := leg1Min + pol.serviceMinutes + leg2Min;
    var willExceedShift := now + totalMin * MS_PER_MINUTE > v.shiftEnd + pol.maxOvertimeMinutes * MS_PER_MINUTE;
    var reason := if decision == HomeFallback then HOME_FALLBACK_REASON
      else if pol.enableMeetAndSwap && |legs| > 2 then SWAP_REASON
      else DIRECT_REASON;
    assign := Some(AssignmentV2(job.id, legs, decision, willExceedShift, reason));
  }

  // ------------------------------------------------------------ best proposal

  /** `legs.reduce((a, l) => a + l.etaMinutes, 0)` */
  function EtaSum(legs: seq<RouteLeg>): int
    decreases |legs|
  {
    if legs == [] then 0 else EtaSum(legs[..|legs| - 1]) + legs[|legs| - 1].etaMinutes
  }

  function TotalEta(a: AssignmentV2): int {
    EtaSum(a.legs)
  }

  /** Legs of at least one minute each sum to at least one minute per leg. */
  lemma {:induction false} EtaSumAtLeastLength(legs: seq<RouteLeg>)
    requires forall i :: 0 <= i < |legs| ==> legs[i].etaMinutes >= 1
    ensures EtaSum(legs) >= |legs|
    decreases |legs|
  {
    if legs != [] {
      EtaSumAtLeastLength(legs[..|legs| - 1]);
    }
  }

  function Candidates(job: JobV2, drop: Coord, decision: DropDecision, eligible: seq<Vehicle>,
                      pol: Policies, now: int, travel: TravelOracle): seq<Option<AssignmentV2>>
  {
    seq(|eligible|, k requires 0 <= k < |eligible| => Candidate(job, drop, decision, eligible, eligible[k], pol, now, travel))
  }

  /** The job's `best` after the vehicle loop. */
  function PlanJob(job: JobV2, garageMap: map<string, Garage>, vehicles: seq<Vehicle>, pol: Policies,
                   now: int, travel: TravelOracle): Option<AssignmentV2>
  {
    var c := SelectDrop(job, garageMap, pol, now);
    FirstMin(Candidates(job, c.drop, c.decision, Eligible(job.issueType, vehicles), pol, now, travel), TotalEta)
  }

  /**
    Over the proposals of an eligible list: none at all exactly when every vehicle is
    skipped; otherwise the first proposal with the lowest total ETA.
   */
  lemma {:induction false} BestProposal(job: JobV2, drop: Coord, decision: DropDecision, el: seq<Vehicle>,
                                        pol: Policies, now: int, travel: TravelOracle)
    ensures FirstMin(Candidates(job, drop, decision, el, pol, now, travel), TotalEta).None?
        <==> forall k :: 0 <= k < |el| ==> Candidate(job, drop, decision, el, el[k], pol, now, travel).None?
    ensures var best := FirstMin(Candidates(job, drop, decision, el, pol, now, travel), TotalEta);
      best.Some? ==> exists k ::
        && 0 <= k < |el|
        && Candidate(job, drop, decision, el, el[k], pol, now, travel) == best
        && (forall j :: 0 <= j < |el| && Candidate(job, drop, decision, el, el[j], pol, now, travel).Some?
              ==> TotalEta(best.value) <= TotalEta(Candidate(job, drop, decision, el, el[j], pol, now, travel).value))
        && (forall j :: 0 <= j < k && Candidate(job, drop, decision, el, el[j], pol, now, travel).Some?
              ==> TotalEta(best.value) < TotalEta(Candidate(job, drop, decision, el, el[j], pol, now, travel).value))
    ensures var best := FirstMin(Candidates(job, drop, decision, el, pol, now, travel), TotalEta);
      best.Some? ==> best.value.jobId == job.id && best.value.dropDecision == decision
  {
    var cs := Candidates(job, drop, decision, el, pol, now, travel);
    assert forall j :: 0 <= j < |el| ==> cs[j] == Candidate(job, drop, decision, el, el[j], pol, now, travel);
    if FirstMin(cs, TotalEta).Some? {
      var k := FirstMinIsFirstMinimum(cs, TotalEta);
      assert cs[k] == Candidate(job, drop, decision, el, el[k], pol, now, travel);
    }
  }

  /**
    A job stays unassigned exactly when no eligible vehicle proposes a route; otherwise
    its assignment is the proposal of the first eligible vehicle whose total ETA is
    the lowest, for this job and the drop the cascade chose.
   */
  lemma PlanJobChoice(job: JobV2, garageMap: map<string, Garage>, vehicles: seq<Vehicle>, pol: Policies,
                      now: int, travel: TravelOracle)
    ensures var c := SelectDrop(job, garageMap, pol, now);
      var el := Eligible(job.issueType, vehicles);
      var none := forall k :: 0 <= k < |el| ==> Candidate(job, c.drop, c.decision, el, el[k], pol, now, travel).None?;
      PlanJob(job, garageMap, vehicles, pol, now, travel).None? <==> none
    ensures var c := SelectDrop(job, garageMap, pol, now);
      var el := Eligible(job.issueType, vehicles);
      var best := PlanJob(job, garageMap, vehicles, pol, now, travel);
      best.Some? ==> exists k ::
        && 0 <= k < |el|
        && Candidate(job, c.drop, c.decision, el, el[k], pol, now, travel) == best
        && (forall j :: 0 <= j < |el| && Candidate(job, c.drop, c.decision, el, el[j], pol, now, travel).Some?
              ==> TotalEta(best.value) <= TotalEta(Candidate(job, c.drop, c.decision, el, el[j], pol, now, travel).value))
    ensures PlanJob(job, garageMap, vehicles, pol, now, travel).Some? ==>
      var a := PlanJob(job, garageMap, vehicles, pol, now, travel).value;
      a.jobId == job.id && a.dropDecision == SelectDrop(job, garageMap, pol, now).decision
  {
    var c := SelectDrop(job, garageMap, pol, now);
    BestProposal(job, c.drop, c.decision, Eligible(job.issueType, vehicles), pol, now, travel);
  }

  /**
    A job that needs recovery is never assigned when no vehicle is recovery-capable,
    whatever the drop, the policies or the travel times.
   */
  lemma NoRecoveryVehicleNoAssignment(job: JobV2, garageMap: map<string, Garage>, vehicles: seq<Vehicle>,
                                      pol: Policies, now: int, travel: TravelOracle)
    requires job.issueType != Repair
    requires forall k :: 0 <= k < |vehicles| ==> !RecoveryCapable(vehicles[k].vtype)
    ensures PlanJob(job, garageMap, vehicles, pol, now, travel).None?
  {
    var el := Eligible(job.issueType, vehicles);
    assert forall v :: v in vehicles ==> !RecoveryCapable(v.vtype);
  }

  /**
    When every travel time is at least one minute, a proposal whose swap failed (an
    empty route, total ETA 0) beats every real route: if any vehicle's proposal has an
    empty route, the job's assignment has an empty route.
   */
  lemma EmptyRouteWins(job: JobV2, garageMap: map<string, Garage>, vehicles: seq<Vehicle>, pol: Policies,
                       now: int, travel: TravelOracle, k: int)
    requires forall a, b :: travel(a, b).minutes >= 1
    requires var c := SelectDrop(job, garageMap, pol, now);
      var el := Eligible(job.issueType, vehicles);
      && 0 <= k < |el|
      && Candidate(job, c.drop, c.decision, el, el[k], pol, now, travel).Some?
      && Candidate(job, c.drop, c.decision, el, el[k], pol, now, travel).value.legs == []
    ensures PlanJob(job, garageMap, vehicles, pol, now, travel).Some?
    ensures PlanJob(job, garageMap, vehicles, pol, now, travel).value.legs == []
  {
    var c := SelectDrop(job, garageMap, pol, now);
    var el := Eligible(job.issueType, vehicles);
    var cs := Candidates(job, c.drop, c.decision, el, pol, now, travel);
    assert cs[k] == Candidate(job, c.drop, c.decision, el, el[k], pol, now, travel);
    FirstMinIsLowest(cs, TotalEta, k);
    var best := FirstMin(cs, TotalEta);
    var j :| 0 <= j < |cs| && cs[j] == best;
    assert cs[j] == Candidate(job, c.drop, c.decision, el, el[j], pol, now, travel);
    LegsTakeTravelMinutes(job, c.drop, c.decision, el, el[j], pol, now, travel);
    EtaSumAtLeastLength(best.value.legs);
  }

  /** With travel times of at least a minute, every leg of a proposal takes at least a minute. */
  lemma LegsTakeTravelMinutes(job: JobV2, drop: Coord, decision: DropDecision, eligible: seq<Vehicle>, v: Vehicle,
                              pol: Policies, now: int, travel: TravelOracle)
    requires forall a, b :: travel(a, b).minutes >= 1
    requires Candidate(job, drop, decision, eligible, v, pol, now, travel).Some?
    ensures var legs := Candidate(job, drop, decision, eligible, v, pol, now, travel).value.legs;
      forall i :: 0 <= i < |legs| ==> legs[i].etaMinutes >= 1
  {
    var mid := Midpoint(job.pickup, drop);
    SecondVehicleChoice(eligible, v, mid, pol.maxLegMiles, travel);
  }

  /** The vehicle loop for one job, after the drop cascade and the filter. */
  method AssignJob(job: JobV2, garageMap: map<string, Garage>, vehicles: seq<Vehicle>, pol: Policies,
                   now: int, travel: TravelOracle)
    returns (best: Option<AssignmentV2>)
    ensures best == PlanJob(job, garageMap, vehicles, pol, now, travel)
  {
    var drop, dropDecision := ChooseDrop(job, garageMap, pol, now);
    var eligible := Eligible(job.issueType, vehicles);
    ghost var cs := Candidates(job, drop, dropDecision, eligible, pol, now, travel);
    best := None;
    for k := 0 to |eligible|
      invariant best == FirstMin(cs[..k], TotalEta)
    {
      assert cs[..k + 1][..k] == cs[..k];
      var assign := EvaluateVehicle(job, drop, dropDecision, eligible, eligible[k], pol, now, travel);
      if assign.None? {
        continue;
      }
      if best.None? || EtaSum(assign.value.legs) < EtaSum(best.value.legs) {
        best := assign;
      }
    }
    assert cs[..|eligible|] == cs;
  }

  // ------------------------------------------------------------ the run

  function Outcomes(jobs: seq<JobV2>, garageMap: map<string, Garage>, vehicles: seq<Vehicle>, pol: Policies,
                    now: int, travel: TravelOracle): seq<Option<AssignmentV2>>
  {
    seq(|jobs|, i requires 0 <= i < |jobs| => PlanJob(jobs[i], garageMap, vehicles, pol, now, travel))
  }

  function JobIds(jobs: seq<JobV2>): seq<string> {
    seq(|jobs|, i requires 0 <= i < |jobs| => jobs[i].id)
  }

  /** `assignments` and `unassigned` of a run. */
  function Run(now: int, jobs: seq<JobV2>, vehicles: seq<Vehicle>, garages: seq<Garage>, input: PolicyInput,
               travel: TravelOracle): (seq<AssignmentV2>, seq<string>)
  {
    var outs := Outcomes(jobs, GarageMap(garages), vehicles, ResolvePolicies(input), now, travel);
    (Assigned(outs), Unassigned(outs, JobIds(jobs)))
  }

  /** The job loop: each job's `best` is pushed to `assignments`, or its id to `unassigned`. */
  method PlanAll(jobs: seq<JobV2>, garageMap: map<string, Garage>, vehicles: seq<Vehicle>, pol: Policies,
                 now: int, travel: TravelOracle)
    returns (assignments: seq<AssignmentV2>, unassigned: seq<string>)
    ensures assignments == Assigned(Outcomes(jobs, garageMap, vehicles, pol, now, travel))
    ensures unassigned == Unassigned(Outcomes(jobs, garageMap, vehicles, pol, now, travel), JobIds(jobs))
  {
    ghost var outs := Outcomes(jobs, garageMap, vehicles, pol, now, travel);
    ghost var ids := JobIds(jobs);
    assignments, unassigned := [], [];
    for i := 0 to |jobs|
      invariant assignments == Assigned(outs[..i])
      invariant unassigned == Unassigned(outs[..i], ids[..i])
    {
      var best := AssignJob(jobs[i], garageMap, vehicles, pol, now, travel);
      assert outs[i] == best && ids[i] == jobs[i].id;
      PartitionStep(outs, ids, i);
      if best.Some? {
        assignments := assignments + [best.value];
      } else {
        unassigned := unassigned + [jobs[i].id];
      }
    }
    assert outs[..|jobs|] == outs;
    assert ids[..|jobs|] == ids;
  }

  /** The handler's body after parsing: policies, the garage map, then the job loop. */
  method Optimize(now: int, jobs: seq<JobV2>, vehicles: seq<Vehicle>, garages: seq<Garage>, input: PolicyInput,
                  travel: TravelOracle)
    returns (assignments: seq<AssignmentV2>, unassigned: seq<string>)
    ensures (assignments, unassigned) == Run(now, jobs, vehicles, garages, input, travel)
  {
    var policies := ResolvePolicies(input);
    var garageMap := BuildGarageMap(garages);
    assignments, unassigned := PlanAll(jobs, garageMap, vehicles, policies, now, travel);
  }

  function JobIdOf(a: AssignmentV2): string {
    a.jobId
  }

  /**
    A run accounts for every job once: the two lists together have one entry per job,
    every assignment is some job's plan, and with distinct job ids a job's id is in
    `unassigned` exactly when it has no plan and some assignment is for it exactly
    when it has one.
   */
  lemma RunPartition(now: int, jobs: seq<JobV2>, vehicles: seq<Vehicle>, garages: seq<Garage>, input: PolicyInput,
                     travel: TravelOracle, i: int)
    requires 0 <= i < |jobs|
    requires forall j, k :: 0 <= j < k < |jobs| ==> jobs[j].id != jobs[k].id
    ensures var (assignments, unassigned) := Run(now, jobs, vehicles, garages, input, travel);
      |assignments| + |unassigned| == |jobs|
    ensures var (assignments, unassigned) := Run(now, jobs, vehicles, garages, input, travel);
      var plan := PlanJob(jobs[i], GarageMap(garages), vehicles, ResolvePolicies(input), now, travel);
      && (jobs[i].id in unassigned <==> plan.None?)
      && ((exists a :: a in assignments && a.jobId == jobs[i].id) <==> plan.Some?)
  {
    var gm := GarageMap(garages);
    var pol := ResolvePolicies(input);
    var outs := Outcomes(jobs, gm, vehicles, pol, now, travel);
    var ids := JobIds(jobs);
    PartitionComplete(outs, ids);
    forall j | 0 <= j < |outs| && outs[j].Some?
      ensures JobIdOf(outs[j].value) == ids[j]
    {
      PlanJobChoice(jobs[j], gm, vehicles, pol, now, travel);
    }
    ExactlyOneList(outs, ids, JobIdOf, i);
    assert outs[i] == PlanJob(jobs[i], gm, vehicles, pol, now, travel);
    if exists a :: a in Assigned(outs) && a.jobId == ids[i] {
      var a :| a in Assigned(outs) && a.jobId == ids[i];
      assert JobIdOf(a) == ids[i];
    }
  }

  /**
    Every assignment of a run is the plan of one of its jobs, with every leg within
    the mileage limit and a non-empty route ending at the drop the cascade chose.
   */
  lemma RunAssignmentsKeepLimits(now: int, jobs: seq<JobV2>, vehicles: seq<Vehicle>, garages: seq<Garage>,
                                 input: PolicyInput, travel: TravelOracle, a: AssignmentV2)
    requires a in Run(now, jobs, vehicles, garages, input, travel).0
    ensures exists i ::
      && 0 <= i < |jobs|
      && PlanJob(jobs[i], GarageMap(garages), vehicles, ResolvePolicies(input), now, travel) == Some(a)
      && (forall l :: l in a.legs ==> l.miles <= ResolvePolicies(input).maxLegMiles)
      && (a.legs != [] ==> a.legs[|a.legs| - 1].to == SelectDrop(jobs[i], GarageMap(garages), ResolvePolicies(input), now).drop)
  {
    var gm := GarageMap(garages);
    var pol := ResolvePolicies(input);
    var outs := Outcomes(jobs, gm, vehicles, pol, now, travel);
    AssignedMembers(outs);
    var i :| 0 <= i < |outs| && outs[i] == Some(a);
    var job := jobs[i];
    var c := SelectDrop(job, gm, pol, now);
    var el := Eligible(job.issueType, vehicles);
    var cs := Candidates(job, c.drop, c.decision, el, pol, now, travel);
    var k :| 0 <= k < |cs| && cs[k] == Some(a);
    assert cs[k] == Candidate(job, c.drop, c.decision, el, el[k], pol, now, travel);
    RouteShape(job, c.drop, c.decision, el, el[k], pol, now, travel);
  }
}
