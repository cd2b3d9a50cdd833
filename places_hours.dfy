/**
  The opening-hours service: converts a place-details record's opening "periods" into
  the weekly table the optimizers read, and falls back to Monday 09:00-17:00 with a
  30-minute intake cutoff when a place has no usable hours.
 */
module PlacesHours {
  import opened Options
  import opened Text
  import opened Fleet
  import opened Intake

  /** `pad2(n)`: a leading "0" below ten. */
  function Pad2(n: int): string {
    if n < 10 then "0" + IntToString(n) else IntToString(n)
  }

  /** Two digits spelling `n`, for every `n` in 0..99. */
  lemma Pad2TwoDigits(n: int)
    requires 0 <= n < 100
    ensures |Pad2(n)| == 2 && AllDigits(Pad2(n)) && DigitsValue(Pad2(n)) == n
  {
    var s := Pad2(n);
    if n < 10 {
      assert s == ['0', DigitChar(n)];
      assert s[..1] == "0";
      assert DigitsValue(s[..1]) == 0 by { assert s[..1][..0] == ""; }
    } else {
      assert NatToString(n / 10) == [DigitChar(n / 10)];
      assert s == [DigitChar(n / 10), DigitChar(n % 10)];
      assert s[..1] == [DigitChar(n / 10)];
      assert DigitsValue(s[..1]) == n / 10 by { assert s[..1][..0] == ""; }
    }
  }

  /** JavaScript's `a % b` for `b > 0`: the remainder takes the sign of `a`. */
  function JsRem(a: int, b: int): (r: int)
    requires b > 0
    ensures a >= 0 ==> r == a % b
    ensures a < 0 ==> r == -((-a) % b)
    ensures -b < r < b
  {
    if a >= 0 then a % b else -((-a) % b)
  }

  /** `secToHHMM(sec)`: whole hours, then the whole minutes left over, each padded. */
  function SecToHHMM(sec: int): string {
    Pad2(sec / 3600) + ":" + Pad2(JsRem(sec, 3600) / 60)
  }

  /**
    For a second count of under 100 hours, SecToHHMM writes digits that the
    optimizers' "HH:MM" parser reads back as the hours and the left-over minutes.
   */
  lemma SecToHHMMParsesBack(sec: int)
    requires 0 <= sec < 100 * 3600
    ensures ParseHHMM(SecToHHMM(sec)) == Some((sec / 3600, (sec % 3600) / 60))
  {
    Pad2TwoDigits(sec / 3600);
    Pad2TwoDigits((sec % 3600) / 60);
    ParseDigitsHHMM(Pad2(sec / 3600), Pad2((sec % 3600) / 60));
  }

  /** Within a day, that reading is the start of the minute `sec` falls in. */
  lemma SecToHHMMAsTimeOfDay(base: int, sec: int)
    requires 0 <= sec < 24 * 3600
    ensures HhmmToDate(base, SecToHHMM(sec)) == Some(Clock.StartOfDay(base) + (sec / 60) * Clock.MS_PER_MINUTE)
  {
    SecToHHMMParsesBack(sec);
    var h, m := sec / 3600, (sec % 3600) / 60;
    assert h * 60 + m == sec / 60;
  }

  /**
    One entry of the place-details opening periods. A day is present only when it is
    a number; a time is the provider's "HHMM" string.
   */
  datatype Period = Period(
    openDay: Option<int>,
    closeDay: Option<int>,
    openTime: Option<string>,
    closeTime: Option<string>)

  /** A period is kept when it has an open day and non-empty open and close times. */
  predicate ValidPeriod(p: Period) {
    && p.openDay.Some?
    && p.openTime.Some? && p.openTime.value != ""
    && p.closeTime.Some? && p.closeTime.value != ""
  }

  /** "HHMM" as "HH:MM", from characters 0-2 and 2-4. */
  function ColonTime(t: string): string {
    Slice(t, 0, 2) + ":" + Slice(t, 2, 4)
  }

  /** The row a valid period becomes; it is stored under the open day whatever its close day. */
  function RowOf(p: Period): Weekly
    requires ValidPeriod(p)
  {
    Weekly(p.openDay.value, ColonTime(p.openTime.value), ColonTime(p.closeTime.value))
  }

  /** The rows `periodsToWeekly` pushes to `out`, one per valid period, in order. */
  function WeeklyRows(periods: seq<Period>): seq<Weekly>
    decreases |periods|
  {
    if periods == [] then []
    else
      var p := periods[|periods| - 1];
      WeeklyRows(periods[..|periods| - 1]) + (if ValidPeriod(p) then [RowOf(p)] else [])
  }

  /** The conversion works period by period: the rows of a concatenation are the rows of its parts. */
  lemma {:induction false} WeeklyRowsAppend(a: seq<Period>, b: seq<Period>)
    ensures WeeklyRows(a + b) == WeeklyRows(a) + WeeklyRows(b)
    decreases |b|
  {
    if b == [] {
      assert a + b == a;
    } else {
      var n := |b| - 1;
      assert (a + b)[..|a + b| - 1] == a + b[..n];
      assert (a + b)[|a + b| - 1] == b[n];
      WeeklyRowsAppend(a, b[..n]);
      var t := if ValidPeriod(b[n]) then [RowOf(b[n])] else [];
      assert WeeklyRows(a + b) == WeeklyRows(a + b[..n]) + t;
      assert WeeklyRows(b) == WeeklyRows(b[..n]) + t;
      assert WeeklyRows(a) + WeeklyRows(b[..n]) + t == WeeklyRows(a) + (WeeklyRows(b[..n]) + t);
    }
  }

  /** Exactly the valid periods' rows, and invalid periods contribute nothing. */
  lemma {:induction false} WeeklyRowsMembers(periods: seq<Period>)
    ensures |WeeklyRows(periods)| <= |periods|
    ensures forall w :: w in WeeklyRows(periods) <==>
      exists i :: 0 <= i < |periods| && ValidPeriod(periods[i]) && RowOf(periods[i]) == w
    ensures WeeklyRows(periods) == [] <==> forall i :: 0 <= i < |periods| ==> !ValidPeriod(periods[i])
    decreases |periods|
  {
    if periods != [] {
      var n := |periods| - 1;
      var init := periods[..n];
      WeeklyRowsMembers(init);
      assert forall i :: 0 <= i < n ==> init[i] == periods[i];
      forall w | w in WeeklyRows(periods)
        ensures exists i :: 0 <= i < |periods| && ValidPeriod(periods[i]) && RowOf(periods[i]) == w
      {
        if w in WeeklyRows(init) {
          var i :| 0 <= i < n && ValidPeriod(init[i]) && RowOf(init[i]) == w;
          assert periods[i] == init[i];
        }
      }
      forall i | 0 <= i < |periods| && ValidPeriod(periods[i]) ensures RowOf(periods[i]) in WeeklyRows(periods) {
        if i < n {
          assert init[i] == periods[i];
        }
      }
    }
  }

  /** A four-digit "HHMM" becomes "HH:MM", which reads back as its hours and minutes. */
  lemma ColonTimeReadsBack(t: string)
    requires |t| == 4 && AllDigits(t)
    ensures ColonTime(t) == t[..2] + ":" + t[2..]
    ensures ParseHHMM(ColonTime(t)) == Some((DigitsValue(t[..2]), DigitsValue(t[2..])))
  {
    assert Slice(t, 2, 4) == t[2..];
    ParseDigitsHHMM(t[..2], t[2..]);
  }

  /**
    `periodsToWeekly(periods)`: None (undefined) for a non-array and when no period
    is valid; otherwise the rows (RowOf) of the valid periods in order.
   */
  method PeriodsToWeekly(periods: Option<seq<Period>>) returns (r: Option<seq<Weekly>>)
    ensures r.None? <==> NoValidPeriod(periods)
    ensures r.Some? ==> r.value == WeeklyRows(periods.value) && r.value != []
  {
    if periods.None? {
      return None;
    }
    var ps := periods.value;
    var out: seq<Weekly> := [];
    for i := 0 to |ps|
      invariant out == WeeklyRows(ps[..i])
    {
      var p := ps[i];
      assert ps[..i + 1][..i] == ps[..i];
      if !ValidPeriod(p) {
        continue;
      }
      out := out + [Weekly(p.openDay.value, ColonTime(p.openTime.value), ColonTime(p.closeTime.value))];
    }
    assert ps[..|ps|] == ps;
    WeeklyRowsMembers(ps);
    r := if |out| > 0 then Some(out) else None;
  }

  /** What the place-details lookup answered for one place id. */
  datatype PlaceLookup =
    | FetchFailed
    | Details(name: Option<string>, location: Option<Coord>, periods: Option<seq<Period>>)

  const DEFAULT_HOURS: seq<Weekly> := [Weekly(1, "09:00", "17:00")]
  const DEFAULT_INTAKE_CUTOFF_MINUTES: int := 30

  /** The record the handler pushes for one place id. */
  function RecordFor(placeId: string, lookup: PlaceLookup): Garage {
    match lookup
    case FetchFailed =>
      Garage(placeId, None, None, Some(DEFAULT_HOURS), Some(DEFAULT_INTAKE_CUTOFF_MINUTES))
    case Details(name, location, periods) =>
      var weekly := if periods.Some? && WeeklyRows(periods.value) != [] then WeeklyRows(periods.value) else DEFAULT_HOURS;
      Garage(placeId, name, location, Some(weekly), Some(DEFAULT_INTAKE_CUTOFF_MINUTES))
  }

  /**
    Every record names its place, has a non-empty weekly table and a 30-minute cutoff;
    a failed fetch, or a place without valid periods, gets the Monday 09:00-17:00 table.
   */
  lemma RecordForFacts(placeId: string, lookup: PlaceLookup)
    ensures RecordFor(placeId, lookup).placeId == placeId
    ensures RecordFor(placeId, lookup).intakeCutoffMinutes == Some(30)
    ensures RecordFor(placeId, lookup).openingHours.Some?
    ensures RecordFor(placeId, lookup).openingHours.value != []
    ensures lookup.FetchFailed? ==>
      RecordFor(placeId, lookup) == Garage(placeId, None, None, Some(DEFAULT_HOURS), Some(30))
    ensures lookup.Details? ==>
      RecordFor(placeId, lookup).coords == lookup.location && RecordFor(placeId, lookup).name == lookup.name
    ensures lookup.Details? && NoValidPeriod(lookup.periods) ==>
      RecordFor(placeId, lookup).openingHours == Some(DEFAULT_HOURS)
    ensures lookup.Details? && !NoValidPeriod(lookup.periods) ==>
      RecordFor(placeId, lookup).openingHours == Some(WeeklyRows(lookup.periods.value))
  {
    if lookup.Details? && lookup.periods.Some? {
      WeeklyRowsMembers(lookup.periods.value);
    }
  }

  /** No array of periods, or none of its periods is valid. */
  predicate NoValidPeriod(periods: Option<seq<Period>>) {
    periods.None? || forall i :: 0 <= i < |periods.value| ==> !ValidPeriod(periods.value[i])
  }

  datatype HoursReply = PlaceIdsRequired | Hours(records: seq<Garage>)

  /**
    The handler's loop: a 400 for an empty id list, otherwise one record per place id,
    in the given order. `details` stands for the place-details fetch.
   */
  method HoursHandler(placeIds: seq<string>, details: string -> PlaceLookup) returns (reply: HoursReply)
    ensures |placeIds| == 0 <==> reply.PlaceIdsRequired?
    ensures reply.Hours? ==> |reply.records| == |placeIds|
    ensures reply.Hours? ==>
      forall i :: 0 <= i < |placeIds| ==> reply.records[i] == RecordFor(placeIds[i], details(placeIds[i]))
  {
    if |placeIds| == 0 {
      return PlaceIdsRequired;
    }
    var results: seq<Garage> := [];
    for i := 0 to |placeIds|
      invariant |results| == i
      invariant forall k :: 0 <= k < i ==> results[k] == RecordFor(placeIds[k], details(placeIds[k]))
    {
      var pid := placeIds[i];
      var r := details(pid);
      if r.FetchFailed? {
        results := results + [Garage(pid, None, None, Some(DEFAULT_HOURS), Some(DEFAULT_INTAKE_CUTOFF_MINUTES))];
        continue;
      }
      var weekly := PeriodsToWeekly(r.periods);
      if r.periods.Some? {
        WeeklyRowsMembers(r.periods.value);
      }
      results := results + [Garage(pid, r.name, r.location, Some(weekly.GetOr(DEFAULT_HOURS)), Some(DEFAULT_INTAKE_CUTOFF_MINUTES))];
    }
    reply := Hours(results);
  }
}
