/**
  The vehicle-shortage request log (api/vehicles/request.ts): each request records the
  job, a postcode area from the reverse geocode, a vehicle type inferred from the
  reason text, and a shift-risk flag, and appends it to a process-wide list. The reply
  is an alert listing every request so far. The geocode answer and the webhook's
  success are inputs.
 */
module VehicleRequests {
  import opened Options
  import opened Text
  import opened Fleet

  datatype VehicleNeed = VehicleNeed(
    jobId: string,
    coords: Coord,
    reason: string,
    suggestedType: string,
    postcodeArea: string,
    overdueRisk: bool)

  /** What the reverse geocode gave: it threw, or its first result's postal code, if any. */
  datatype GeocodeResult = GeocodeFailed | GeocodeFound(postalCode: Option<string>)

  /** A JSON value as `shiftRisk` may carry it, for `!!shiftRisk`. */
  datatype JsValue = JsUndefined | JsNull | JsBool(b: bool) | JsNumber(x: real) | JsString(s: string) | JsObject

  /** 405, the 200 reply carrying the alert, or the 500 reply when the webhook call throws. */
  datatype RequestReply = RequestMethodNotAllowed | Alerted(summary: string) | WebhookFailed

  const HIAB: string := "HIAB"
  const TOW_VAN: string := "Tow Van"
  const VAN: string := "Van"

  /** `/hiab/i` or a hiab hint gives HIAB; else `/tow|recovery/i` gives Tow Van; else Van. */
  function SuggestedType(reason: string, vehicleHint: Option<string>): string {
    if ContainsIgnoreCase(reason, "hiab") || vehicleHint == Some("hiab_grabber") then HIAB
    else if ContainsIgnoreCase(reason, "tow") || ContainsIgnoreCase(reason, "recovery") then TOW_VAN
    else VAN
  }

  /**
    The type is chosen in order: HIAB when "hiab" occurs in the reason in any letter
    case, or the hint is hiab_grabber; else Tow Van when "tow" or "recovery" occurs;
    else Van.
   */
  lemma SuggestedTypeOrder(reason: string, vehicleHint: Option<string>)
    ensures var hiab := (exists i :: OccursAt(reason, "hiab", i)) || vehicleHint == Some("hiab_grabber");
      var tow := (exists i :: OccursAt(reason, "tow", i)) || (exists i :: OccursAt(reason, "recovery", i));
      SuggestedType(reason, vehicleHint) == if hiab then HIAB else if tow then TOW_VAN else VAN
  {
    ContainsIgnoreCaseSpec(reason, "hiab");
    ContainsIgnoreCaseSpec(reason, "tow");
    ContainsIgnoreCaseSpec(reason, "recovery");
  }

  /** Letter case does not matter, and the hint alone is enough for a HIAB. */
  lemma SuggestedTypeExamples()
    ensures SuggestedType("HIAB", None) == HIAB
    ensures SuggestedType("Tow", None) == TOW_VAN
    ensures SuggestedType("", Some("hiab_grabber")) == HIAB
    ensures SuggestedType("", None) == VAN
  {
    assert OccursAt("HIAB", "hiab", 0) by {
      assert "HIAB"[0..4] == "HIAB";
      assert Lower("HIAB") == "hiab";
    }
    SuggestedTypeOrder("HIAB", None);
    assert OccursAt("Tow", "tow", 0) by {
      assert "Tow"[0..3] == "Tow";
      assert Lower("Tow") == "tow";
    }
    assert !ContainsIgnoreCase("Tow", "hiab");
    SuggestedTypeOrder("Tow", None);
  }

  /**
    `pc.slice(0, 3).toUpperCase()` of the postal code found; "" when there is none (or
    it is empty); "Unknown" when the lookup threw.
   */
  function PostcodeArea(geo: GeocodeResult): string {
    match geo
    case GeocodeFailed => "Unknown"
    case GeocodeFound(pc) =>
      if pc.None? || pc.value == "" then "" else Upper(Slice(pc.value, 0, 3))
  }

  lemma PostcodeAreaSpec(geo: GeocodeResult)
    ensures geo.GeocodeFailed? ==> PostcodeArea(geo) == "Unknown"
    ensures geo.GeocodeFound? && (geo.postalCode.None? || geo.postalCode.value == "") ==> PostcodeArea(geo) == ""
    ensures geo.GeocodeFound? && geo.postalCode.Some? ==>
      var pc := geo.postalCode.value;
      && |PostcodeArea(geo)| == (if |pc| < 3 then |pc| else 3)
      && forall i :: 0 <= i < |PostcodeArea(geo)| ==> PostcodeArea(geo)[i] == UpperChar(pc[i])
  {
  }

  /** `!!v` */
  predicate Truthy(v: JsValue) {
    match v
    case JsUndefined => false
    case JsNull => false
    case JsBool(b) => b
    case JsNumber(x) => x != 0.0
    case JsString(s) => s != ""
    case JsObject => true
  }

  /** One line of the summary: `<type> in <area>`, with " (shift risk)" when flagged. */
  function Line(r: VehicleNeed): string {
    r.suggestedType + " in " + r.postcodeArea + (if r.overdueRisk then " (shift risk)" else "")
  }

  function Lines(rs: seq<VehicleNeed>): (r: seq<string>)
    ensures |r| == |rs|
    ensures forall i :: 0 <= i < |rs| ==> r[i] == Line(rs[i])
  {
    seq(|rs|, i requires 0 <= i < |rs| => Line(rs[i]))
  }

  function Summary(rs: seq<VehicleNeed>): string {
    Join(Lines(rs), "; ")
  }

  /**
    Each new request adds its line at the end of the summary, after "; " unless it is
    the first: the summary lists all requests so far, in order.
   */
  lemma SummaryAppend(rs: seq<VehicleNeed>, r: VehicleNeed)
    ensures Summary(rs + [r]) == if rs == [] then Line(r) else Summary(rs) + "; " + Line(r)
  {
    var ls := Lines(rs + [r]);
    assert ls[..|rs|] == Lines(rs);
  }

  const ALERT_HEADER: string := "\U{26A0}\U{FE0F} Vehicle Requests:\n"

  /** The alert: the header, the total count and the summary. */
  function AlertMessage(rs: seq<VehicleNeed>): string {
    ALERT_HEADER + NatToString(|rs|) + " vehicle(s) needed:\n" + Summary(rs)
  }

  /** The module-level `requests` list. */
  class RequestLog {
    var requests: seq<VehicleNeed>

    constructor()
      ensures requests == []
    {
      requests := [];
    }

    /**
      The request handler. A POST appends exactly one entry, the earlier ones
      unchanged, and replies with the alert over the whole list; when the webhook
      fails the entry stays but the reply is the failure.
     */
    method Request(httpMethod: string, jobId: string, coords: Coord, reason: string, vehicleHint: Option<string>,
                   shiftRisk: JsValue, geo: GeocodeResult, webhookOk: bool)
      returns (reply: RequestReply)
      modifies this
      ensures httpMethod != "POST" ==> reply == RequestMethodNotAllowed && requests == old(requests)
      ensures httpMethod == "POST" ==>
        && requests == old(requests) + [VehicleNeed(jobId, coords, reason, SuggestedType(reason, vehicleHint),
                                                    PostcodeArea(geo), Truthy(shiftRisk))]
        && reply == if webhookOk then Alerted(AlertMessage(requests)) else WebhookFailed
    {
      if httpMethod != "POST" {
        return RequestMethodNotAllowed;
      }
      var postcodeArea := PostcodeArea(geo);
      var suggestedType := SuggestedType(reason, vehicleHint);
      var overdueRisk := Truthy(shiftRisk);
      requests := requests + [VehicleNeed(jobId, coords, reason, suggestedType, postcodeArea, overdueRisk)];
      var message := AlertMessage(requests);
      if !webhookOk {
        return WebhookFailed;
      }
      reply := Alerted(message);
    }
  }
}
