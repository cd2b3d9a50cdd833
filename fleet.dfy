/**
  Shared vocabulary of the optimizers: coordinates, vehicles, jobs, the travel
  lookup, and the last-minutes-of-shift rule that every optimizer variant applies.
 */
module Fleet {
  import opened Options
  import opened Clock

  /** Latitude/longitude in degrees, exact. */
  datatype Coord = Coord(lat: real, lng: real)

  /** One answer of the distance/ETA service: travel time in minutes and distance in miles. */
  datatype Travel = Travel(minutes: int, miles: real)

  /**
    The distance/ETA lookup `(from, to) -> (minutes, miles)`: a deterministic oracle
    standing for the external routing service.
   */
  type TravelOracle = (Coord, Coord) -> Travel

  datatype VehicleType =
    | VanOnly | VanTow | SmallRamp | HiabGrabber | LorryRecovery | MotoRecovery | MotoRepair

  datatype IssueType = Repair | RepairPossibleRecovery | RecoveryOnly

  /** A vehicle of optimize-v2 and of the pending-vehicle pool; `shiftEnd` is an instant. */
  datatype Vehicle = Vehicle(
    id: string,
    vtype: VehicleType,
    location: Coord,
    shiftEnd: int,
    allowOvertime: bool)

  /** A vehicle of the two older optimizers, whose shift end may be missing. */
  datatype VehicleV1 = VehicleV1(
    id: string,
    location: Coord,
    shiftEnd: Option<int>,
    allowOvertime: bool)

  /** A job of the two older optimizers: one primary drop-off garage and fallback ids. */
  datatype JobV1 = JobV1(
    id: string,
    pickup: Coord,
    dropoffPlaceId: string,
    dropoffFallbackPlaceIds: seq<string>)

  /** `(shiftEnd - now) / 60000`: minutes left in the shift, exactly. */
  function MinutesLeft(shiftEnd: int, now: int): real {
    (shiftEnd - now) as real / MS_PER_MINUTE as real
  }

  /**
    The last-minutes rule: a vehicle takes no new job when at most
    `noNewJobLastMinutes` minutes of its shift are left, unless it may work overtime.
   */
  predicate NoNewJob(shiftEnd: int, now: int, noNewJobLastMinutes: int, allowOvertime: bool) {
    MinutesLeft(shiftEnd, now) <= noNewJobLastMinutes as real && !allowOvertime
  }

  /** The rule in whole milliseconds: no division is involved. */
  lemma NoNewJobInMilliseconds(shiftEnd: int, now: int, noNewJobLastMinutes: int, allowOvertime: bool)
    ensures NoNewJob(shiftEnd, now, noNewJobLastMinutes, allowOvertime)
        <==> shiftEnd - now <= noNewJobLastMinutes * MS_PER_MINUTE && !allowOvertime
  {
    var left := (shiftEnd - now) as real;
    var limit := noNewJobLastMinutes as real;
    assert left / 60000.0 <= limit <==> left <= limit * 60000.0;
  }
}
