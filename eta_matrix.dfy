/**
  The distance/ETA matrix service: validates the request and turns the provider's
  per-element durations (seconds) into whole travel minutes, with 9999 standing for
  "unreachable". The provider's reply is an input; the service reports minutes only.
 */
module EtaMatrix {
  import opened Options
  import opened Fleet

  const UNREACHABLE_MINUTES: int := 9999

  /** One element of a provider row: optional traffic-aware and plain durations, in seconds. */
  datatype Element = Element(durationInTraffic: Option<real>, duration: Option<real>)

  /** The provider's answer: an HTTP failure, or a body whose `rows`/`elements` may be missing. */
  datatype ProviderReply =
    | NotOk(status: int, detail: string)
    | Ok(rows: Option<seq<Option<seq<Element>>>>)

  datatype MatrixResponse =
    | OriginsAndDestinationsRequired
    | ProviderError(status: int, detail: string)
    | Minutes(minutes: seq<seq<int>>)

  /** `Math.round(x)`: the nearest integer, halves rounded up. */
  function Round(x: real): int {
    (x + 0.5).Floor
  }

  /** `Math.max(1, Math.round(secs / 60))`. */
  function WholeMinutes(secs: real): (r: int)
    ensures r >= 1
  {
    var rounded := Round(secs / 60.0);
    if rounded < 1 then 1 else rounded
  }

  /**
    Whole minutes are the nearest minute count, halves rounded up, and never less than
    one; for whole seconds that is `max(1, (secs + 30) div 60)`.
   */
  lemma WholeMinutesIsNearest(secs: real)
    ensures secs >= 30.0 ==>
      60.0 * WholeMinutes(secs) as real - 30.0 <= secs < 60.0 * WholeMinutes(secs) as real + 30.0
    ensures secs < 90.0 ==> WholeMinutes(secs) == 1
  {
    var r := Round(secs / 60.0);
    assert r as real <= secs / 60.0 + 0.5 < r as real + 1.0;
  }

  lemma WholeMinutesOfWholeSeconds(secs: int)
    ensures WholeMinutes(secs as real) == if (secs + 30) / 60 < 1 then 1 else (secs + 30) / 60
  {
    var q := (secs + 30) / 60;
    assert 60 * q <= secs + 30 < 60 * q + 60;
    assert q as real <= secs as real / 60.0 + 0.5 < q as real + 1.0;
    assert Round(secs as real / 60.0) == q;
  }

  /**
    One element's minutes: `duration_in_traffic` when present, else `duration`,
    else the unreachable sentinel.
   */
  function ElementMinutes(el: Element): (r: int)
    ensures r >= 1
  {
    var secs := if el.durationInTraffic.Some? then el.durationInTraffic else el.duration;
    if secs.None? then UNREACHABLE_MINUTES else WholeMinutes(secs.value)
  }

  lemma ElementMinutesChoice(el: Element)
    ensures el.durationInTraffic.Some? ==> ElementMinutes(el) == WholeMinutes(el.durationInTraffic.value)
    ensures el.durationInTraffic.None? && el.duration.Some? ==> ElementMinutes(el) == WholeMinutes(el.duration.value)
    ensures el.durationInTraffic.None? && el.duration.None? ==> ElementMinutes(el) == UNREACHABLE_MINUTES
  {
  }

  /** `(row.elements || []).map(...)`. */
  function RowMinutes(elements: Option<seq<Element>>): seq<int> {
    var els := elements.GetOr([]);
    seq(|els|, j requires 0 <= j < |els| => ElementMinutes(els[j]))
  }

  /** `(data.rows || []).map(...)`. */
  function TableMinutes(rows: Option<seq<Option<seq<Element>>>>): seq<seq<int>> {
    var rs := rows.GetOr([]);
    seq(|rs|, i requires 0 <= i < |rs| => RowMinutes(rs[i]))
  }

  /** The handler after its method and key checks. */
  function Matrix(origins: seq<Coord>, destinations: seq<Coord>, reply: ProviderReply): (r: MatrixResponse)
    ensures r.OriginsAndDestinationsRequired? <==> |origins| == 0 || |destinations| == 0
  {
    if |origins| == 0 || |destinations| == 0 then OriginsAndDestinationsRequired
    else match reply
      case NotOk(status, detail) => ProviderError(status, detail)
      case Ok(rows) => Minutes(TableMinutes(rows))
  }

  /**
    A successful reply keeps the provider's shape, one output row per provider row and
    one entry per element, and every entry is a minute count of at least one.
   */
  lemma MatrixShape(origins: seq<Coord>, destinations: seq<Coord>, rows: seq<Option<seq<Element>>>)
    requires |origins| > 0 && |destinations| > 0
    ensures var r := Matrix(origins, destinations, Ok(Some(rows)));
      && r.Minutes?
      && |r.minutes| == |rows|
      && (forall i :: 0 <= i < |rows| ==> |r.minutes[i]| == |rows[i].GetOr([])|)
      && (forall i, j :: 0 <= i < |rows| && 0 <= j < |rows[i].GetOr([])| ==>
            r.minutes[i][j] == ElementMinutes(rows[i].GetOr([])[j]) && r.minutes[i][j] >= 1)
  {
  }

  /** An empty origin or destination list is refused before any lookup, whatever the provider would say. */
  lemma EmptyInputIgnoresProvider(origins: seq<Coord>, destinations: seq<Coord>, a: ProviderReply, b: ProviderReply)
    requires |origins| == 0 || |destinations| == 0
    ensures Matrix(origins, destinations, a) == Matrix(origins, destinations, b) == OriginsAndDestinationsRequired
  {
  }
}
