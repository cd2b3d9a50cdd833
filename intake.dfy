/**
  Garage records and the garage intake cutoff: the last instant of the day at which a
  garage still takes a new drop-off, computed from its weekly opening hours.
  `todaysCutoff` of api/optimize-v2.ts and `cutoffFor` of api/optimize.old.ts are the
  same computation; both are TodaysCutoff here.
 */
module Intake {
  import opened Options
  import opened Text
  import opened Clock
  import opened Fleet

  /** One row of a weekly table: a day (0 = Sunday) with "HH:MM" open and close times. */
  datatype Weekly = Weekly(day: int, open: string, close: string)

  datatype Garage = Garage(
    placeId: string,
    name: Option<string>,
    coords: Option<Coord>,
    openingHours: Option<seq<Weekly>>,
    intakeCutoffMinutes: Option<int>)

  /** The characters of `s` before its first ':' (all of `s` when there is none). */
  function BeforeColon(s: string): (r: string)
    ensures ':' !in r
    ensures |r| <= |s| && r == s[..|r|]
  {
    if s == [] || s[0] == ':' then [] else [s[0]] + BeforeColon(s[1..])
  }

  /** The characters of `s` after its first ':', or None when it has none. */
  function AfterColon(s: string): (r: Option<string>)
    ensures r.None? <==> ':' !in s
  {
    if s == [] then None else if s[0] == ':' then Some(s[1..]) else AfterColon(s[1..])
  }

  /**
    `const [h, m] = hhmm.split(":").map(Number)`: the first two ':'-separated fields as
    numbers. A missing minute field is `undefined`, which `setHours` turns into an
    invalid date; so is a field that is not a number. Both give None.
   */
  function ParseHHMM(hhmm: string): Option<(int, int)> {
    var h := NumberOf(BeforeColon(hhmm));
    var rest := AfterColon(hhmm);
    if rest.None? then None
    else
      var m := NumberOf(BeforeColon(rest.value));
      if h.Some? && m.Some? then Some((h.value, m.value)) else None
  }

  lemma {:induction false} SplitAtColon(a: string, b: string)
    requires ':' !in a
    ensures BeforeColon(a + ":" + b) == a
    ensures AfterColon(a + ":" + b) == Some(b)
  {
    if a != [] {
      assert (a + ":" + b)[1..] == a[1..] + ":" + b;
      SplitAtColon(a[1..], b);
    }
  }

  lemma {:induction false} BeforeColonOfPlain(s: string)
    requires ':' !in s
    ensures BeforeColon(s) == s
  {
    if s != [] {
      BeforeColonOfPlain(s[1..]);
    }
  }

  /** "hh:mm" written with digits parses back to its two numbers. */
  lemma ParseDigitsHHMM(hh: string, mm: string)
    requires AllDigits(hh) && AllDigits(mm)
    ensures ParseHHMM(hh + ":" + mm) == Some((DigitsValue(hh), DigitsValue(mm)))
  {
    assert forall i :: 0 <= i < |hh| ==> hh[i] != ':';
    assert forall i :: 0 <= i < |mm| ==> mm[i] != ':';
    SplitAtColon(hh, mm);
    BeforeColonOfPlain(mm);
  }

  /**
    `hhmmToDate(base, hhmm)`: `base`'s local date at the time `hhmm`, or None for
    the invalid date an unparseable time gives. Hours past 23 or minutes past 59 run
    on from that midnight, as `setHours` lets them ("17:75" is 18:15).
   */
  function HhmmToDate(base: int, hhmm: string): (r: Option<int>)
    ensures r.Some? <==> ParseHHMM(hhmm).Some?
    ensures r.Some? ==> var (h, m) := ParseHHMM(hhmm).value;
      && r.value - StartOfDay(base) == (h * 60 + m) * MS_PER_MINUTE
      && (0 <= h < 24 && 0 <= m < 60 ==> StartOfDay(r.value) == StartOfDay(base))
  {
    match ParseHHMM(hhmm)
    case None => None
    case Some((h, m)) =>
      if 0 <= h < 24 && 0 <= m < 60 then
        AtLocalTimeSameDate(base, h, m);
        Some(AtLocalTime(base, h, m))
      else
        Some(AtLocalTime(base, h, m))
  }

  /** `hours.find((h) => h.day === dow)`: the first row for that day. */
  function FirstOnDay(hours: seq<Weekly>, dow: int): (r: Option<Weekly>)
    ensures r.None? <==> forall k :: 0 <= k < |hours| ==> hours[k].day != dow
    ensures r.Some? ==> r.value.day == dow && exists k ::
      && 0 <= k < |hours| && hours[k] == r.value
      && forall j :: 0 <= j < k ==> hours[j].day != dow
  {
    if hours == [] then None
    else if hours[0].day == dow then Some(hours[0])
    else
      var r := FirstOnDay(hours[1..], dow);
      assert forall k :: 1 <= k < |hours| ==> hours[1..][k - 1] == hours[k];
      if r.Some? then
        var k :| 0 <= k < |hours[1..]| && hours[1..][k] == r.value && r.value.day == dow
          && forall j :: 0 <= j < k ==> hours[1..][j].day != dow;
        assert hours[k + 1] == r.value;
        r
      else r
  }

  /** The table has a row for `dow` (an absent table has none). */
  predicate OpenOn(hours: Option<seq<Weekly>>, dow: int) {
    hours.Some? && FirstOnDay(hours.value, dow).Some?
  }

  /**
    The intake cutoff on `date`'s day. A garage closed that day gets an instant
    before `date` (so `date <= cutoff` fails); otherwise it is the first matching
    row's closing time on the same date, less `cutoffMins` minutes. None is the
    invalid date of an unparseable closing time.
   */
  function TodaysCutoff(date: int, hours: Option<seq<Weekly>>, cutoffMins: int): (r: Option<int>)
    ensures !OpenOn(hours, DayOfWeek(date)) ==> r == Some(date - 1)
    ensures OpenOn(hours, DayOfWeek(date)) ==>
      var today := FirstOnDay(hours.value, DayOfWeek(date)).value;
      r.Some? <==> ParseHHMM(today.close).Some?
    ensures OpenOn(hours, DayOfWeek(date)) && r.Some? ==>
      var today := FirstOnDay(hours.value, DayOfWeek(date)).value;
      r.value == HhmmToDate(date, today.close).value - cutoffMins * MS_PER_MINUTE
  {
    var today := if hours.None? then None else FirstOnDay(hours.value, DayOfWeek(date));
    if today.None? then Some(date - 1)
    else
      match HhmmToDate(date, today.value.close)
      case None => None
      case Some(closeAt) => Some(closeAt - cutoffMins * MS_PER_MINUTE)
  }

  /** `now <= cutoff`; a comparison with an invalid date is false. */
  predicate StillOpen(now: int, cutoff: Option<int>) {
    cutoff.Some? && now <= cutoff.value
  }

  /** On a day without a row the cutoff has always passed. */
  lemma ClosedDayAlwaysMissed(now: int, hours: Option<seq<Weekly>>, cutoffMins: int)
    requires !OpenOn(hours, DayOfWeek(now))
    ensures !StillOpen(now, TodaysCutoff(now, hours, cutoffMins))
  {
  }

  /**
    On a day with a row closing at a time of day HH:MM, a garage still takes drop-offs
    exactly while the time of day is at most `cutoffMins` minutes before HH:MM.
   */
  lemma IntakeWindow(now: int, hours: Option<seq<Weekly>>, cutoffMins: int, h: int, m: int)
    requires OpenOn(hours, DayOfWeek(now))
    requires ParseHHMM(FirstOnDay(hours.value, DayOfWeek(now)).value.close) == Some((h, m))
    requires 0 <= h < 24 && 0 <= m < 60
    ensures StillOpen(now, TodaysCutoff(now, hours, cutoffMins))
        <==> now - StartOfDay(now) <= (h * 60 + m - cutoffMins) * MS_PER_MINUTE
  {
    AtLocalTimeSameDate(now, h, m);
  }

  /**
    A garage open 09:00-17:00 on Mondays with a 30-minute cutoff: at 16:25 on a Monday
    it still takes drop-offs (the cutoff is 16:30 that day); at 16:35 it does not.
   */
  lemma MondayCutoffExample()
    ensures var monday := 4 * MS_PER_DAY;
      var hours := Some([Weekly(1, "09:00", "17:00")]);
      && TodaysCutoff(monday + (16 * 60 + 25) * MS_PER_MINUTE, hours, 30)
           == Some(monday + (16 * 60 + 30) * MS_PER_MINUTE)
      && StillOpen(monday + (16 * 60 + 25) * MS_PER_MINUTE,
                   TodaysCutoff(monday + (16 * 60 + 25) * MS_PER_MINUTE, hours, 30))
      && !StillOpen(monday + (16 * 60 + 35) * MS_PER_MINUTE,
                    TodaysCutoff(monday + (16 * 60 + 35) * MS_PER_MINUTE, hours, 30))
  {
    var monday := 4 * MS_PER_DAY;
    var row := Weekly(1, "09:00", "17:00");
    var hours := Some([row]);
    assert "17:00" == "17" + ":" + "00";
    ParseDigitsHHMM("17", "00");
    assert DigitsValue("17") == 17 by {
      assert "17"[..1] == "1";
      assert DigitsValue("1") == 1 by { assert "1"[..0] == ""; }
    }
    assert DigitsValue("00") == 0 by {
      assert "00"[..1] == "0";
      assert DigitsValue("0") == 0 by { assert "0"[..0] == ""; }
    }
    assert ParseHHMM(row.close) == Some((17, 0));
    CutoffOnMonday(monday + (16 * 60 + 25) * MS_PER_MINUTE, row);
    CutoffOnMonday(monday + (16 * 60 + 35) * MS_PER_MINUTE, row);
  }

  lemma CutoffOnMonday(now: int, row: Weekly)
    requires 4 * MS_PER_DAY <= now < 5 * MS_PER_DAY
    requires row.day == 1 && ParseHHMM(row.close) == Some((17, 0))
    ensures TodaysCutoff(now, Some([row]), 30) == Some(4 * MS_PER_DAY + (16 * 60 + 30) * MS_PER_MINUTE)
  {
    StartOfDayOf(4 * MS_PER_DAY, now);
    assert StartOfDay(4 * MS_PER_DAY) == 4 * MS_PER_DAY;
    assert DayOfWeek(now) == 1;
    assert FirstOnDay([row], 1) == Some(row);
  }

  /** `for (const g of garages) garageMap[g.placeId] = g`: a later record with an id overwrites an earlier one. */
  function GarageMap(garages: seq<Garage>): map<string, Garage>
    decreases |garages|
  {
    if garages == [] then map[]
    else
      var g := garages[|garages| - 1];
      GarageMap(garages[..|garages| - 1])[g.placeId := g]
  }

  /** Every record's id is a key, there are no others, and each key maps to the last record with that id. */
  lemma {:induction false} GarageMapLookup(garages: seq<Garage>, id: string)
    ensures id in GarageMap(garages) <==> exists k :: 0 <= k < |garages| && garages[k].placeId == id
    ensures id in GarageMap(garages) ==>
      exists k :: 0 <= k < |garages| && garages[k] == GarageMap(garages)[id]
        && garages[k].placeId == id
        && forall j :: k < j < |garages| ==> garages[j].placeId != id
    decreases |garages|
  {
    if garages != [] {
      var n := |garages| - 1;
      var init := garages[..n];
      GarageMapLookup(init, id);
      assert forall k :: 0 <= k < n ==> init[k] == garages[k];
      if garages[n].placeId != id && id in GarageMap(garages) {
        var k :| 0 <= k < n && init[k] == GarageMap(init)[id] && init[k].placeId == id
          && forall j :: k < j < n ==> init[j].placeId != id;
        assert garages[k] == GarageMap(garages)[id];
      }
    }
  }

  method BuildGarageMap(garages: seq<Garage>) returns (garageMap: map<string, Garage>)
    ensures garageMap == GarageMap(garages)
  {
    garageMap := map[];
    for i := 0 to |garages|
      invariant garageMap == GarageMap(garages[..i])
    {
      var g := garages[i];
      assert garages[..i + 1][..i] == garages[..i];
      garageMap := garageMap[g.placeId := g];
    }
    assert garages[..|garages|] == garages;
  }
}
