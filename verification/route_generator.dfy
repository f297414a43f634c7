/**
 * The navigation-link builder (`RouteGenerator.generateUrl`): checks that
 * origin and destination are given and that there are at most 23
 * intermediate waypoints, percent-encodes every component on its own, joins
 * the encoded waypoints with a literal `|` and splices everything into a
 * Google Maps `dir/?api=1` URL.
 *
 * `ParseUrl` is the inverse the builder is checked against: it splits such
 * a URL on its separators and percent-decodes the pieces.
 */
module RouteGenerator {
  import opened JsValues
  import UriComponent
  import opened Delimited

  /** The provider's limit on intermediate stops (25 points minus origin and destination). */
  const MaxWaypoints: nat := 23

  const BaseUrl: string := "https://www.google.com/maps/dir/?api=1"
  const OriginKey: string := "&origin="
  const DestinationKey: string := "&destination="
  const WaypointsKey: string := "&waypoints="

  /** The two `Error`s `generateUrl` throws. */
  datatype RouteError =
    | MissingEndpoints
    | TooManyWaypoints(limit: nat, count: nat)

  datatype Result<+T> = Ok(value: T) | Err(error: RouteError)

  /** The text both thrown messages begin with. */
  const ErrorPrefix: string := "Error: "

  /** What the thrown `Error` carries as its message. */
  function ErrorMessage(e: RouteError): (m: string)
    ensures |m| > |ErrorPrefix| && m[..|ErrorPrefix|] == ErrorPrefix
    ensures e.TooManyWaypoints? ==>
      |Decimal(e.count)| + 1 <= |m| && m[|m| - |Decimal(e.count)| - 1..] == Decimal(e.count) + "."
  {
    match e
    case MissingEndpoints =>
      ErrorPrefix + "Se requiere un Origen y un Destino obligatoriamente."
    case TooManyWaypoints(limit, count) =>
      ErrorPrefix + "El límite es de " + Decimal(limit) + " paradas intermedias. Has enviado " + Decimal(count) + "."
  }

  /** `waypoints.map(wp => encodeURIComponent(wp))`. */
  function EncodeAll(ws: seq<string>): (r: seq<string>)
    ensures |r| == |ws|
    ensures forall i :: 0 <= i < |ws| ==> r[i] == UriComponent.Encode(ws[i])
  {
    if ws == [] then [] else [UriComponent.Encode(ws[0])] + EncodeAll(ws[1..])
  }

  /** The `&waypoints=a|b|c` tail, or nothing at all for an empty list. */
  function WaypointsSegment(ws: seq<string>): (r: string)
    ensures r == [] <==> ws == []
    ensures ws != [] ==> |WaypointsKey| <= |r| && r[..|WaypointsKey|] == WaypointsKey
    ensures ws != [] ==> |r| == |WaypointsKey| + TotalLength(EncodeAll(ws)) + |ws| - 1
  {
    if |ws| == 0 then "" else WaypointsKey + Join(EncodeAll(ws), '|')
  }

  /**
   * `generateUrl(origin, destination, waypoints)`; the default `[]` for an
   * omitted list is the empty sequence. The endpoint check runs first, so a
   * missing endpoint wins over an over-long list.
   */
  function GenerateUrl(origin: Option<string>, destination: Option<string>, waypoints: seq<string>): (r: Result<string>)
    ensures !Truthy(origin) || !Truthy(destination) ==> r == Err(MissingEndpoints)
    ensures Truthy(origin) && Truthy(destination) && |waypoints| > MaxWaypoints
      ==> r == Err(TooManyWaypoints(23, |waypoints|))
    ensures r.Ok? <==> Truthy(origin) && Truthy(destination) && |waypoints| <= 23
  {
    if !Truthy(origin) || !Truthy(destination) then Err(MissingEndpoints)
    else if |waypoints| > MaxWaypoints then Err(TooManyWaypoints(MaxWaypoints, |waypoints|))
    else
      var encodedOrigin := UriComponent.Encode(origin.value);
      var encodedDestination := UriComponent.Encode(destination.value);
      Ok(Assemble(encodedOrigin, encodedDestination, WaypointsSegment(waypoints)))
  }

  /** The template literal `${baseUrl}&origin=${o}&destination=${d}${segment}`. */
  function Assemble(encodedOrigin: string, encodedDestination: string, segment: string): string {
    BaseUrl + OriginKey + encodedOrigin + DestinationKey + encodedDestination + segment
  }

  /** The assembled URL starts with the base and the origin key and ends with the waypoint tail. */
  lemma AssembleEnds(encodedOrigin: string, encodedDestination: string, segment: string)
    ensures var r := Assemble(encodedOrigin, encodedDestination, segment);
      && |r| == |BaseUrl| + |OriginKey| + |encodedOrigin| + |DestinationKey| + |encodedDestination| + |segment|
      && r[..|BaseUrl| + |OriginKey|] == BaseUrl + OriginKey
      && r[|r| - |segment|..] == segment
  {
  }

  // ---------------------------------------------------------------------
  // The inverse: reading a navigation URL back into its route.
  // ---------------------------------------------------------------------

  datatype Route = Route(origin: string, destination: string, waypoints: seq<string>)

  /** `decodeURIComponent` over a list; fails if any piece fails. */
  function DecodeAll(xs: seq<string>): (r: Option<seq<string>>)
    ensures r.Some? ==> |r.value| == |xs|
  {
    if xs == [] then Some([])
    else match (UriComponent.Decode(xs[0]), DecodeAll(xs[1..]))
      case (Some(x), Some(rest)) => Some([x] + rest)
      case _ => None
  }

  /** The encoded waypoints of a URL tail: none for an empty tail, else the `|`-separated pieces after `&waypoints=`. */
  function ParseWaypointsSegment(tail: string): Option<seq<string>> {
    if tail == [] then Some([])
    else if WaypointsKey <= tail then Some(Split(tail[|WaypointsKey|..], '|'))
    else None
  }

  /** Splits a navigation URL on `&origin=`, `&destination=`, `&waypoints=` and `|`, and decodes every piece. */
  function ParseUrl(url: string): Option<Route> {
    var head := BaseUrl + OriginKey;
    if !(head <= url) then None
    else
      var (encodedOrigin, afterOrigin) := TakeUntil(url[|head|..], '&');
      if !(DestinationKey <= afterOrigin) then None
      else
        var (encodedDestination, tail) := TakeUntil(afterOrigin[|DestinationKey|..], '&');
        match ParseWaypointsSegment(tail)
        case None => None
        case Some(encodedWaypoints) =>
          match (UriComponent.Decode(encodedOrigin), UriComponent.Decode(encodedDestination), DecodeAll(encodedWaypoints))
          case (Some(o), Some(d), Some(ws)) => Some(Route(o, d, ws))
          case _ => None
  }

  lemma {:induction false} DecodeAllEncodeAll(ws: seq<string>)
    ensures DecodeAll(EncodeAll(ws)) == Some(ws)
  {
    if ws != [] {
      UriComponent.DecodeEncode(ws[0]);
      assert EncodeAll(ws)[1..] == EncodeAll(ws[1..]);
      DecodeAllEncodeAll(ws[1..]);
      assert [ws[0]] + ws[1..] == ws;
    }
  }

  lemma EncodedWaypointsHaveNoPipe(ws: seq<string>)
    ensures forall i :: 0 <= i < |ws| ==> '|' !in EncodeAll(ws)[i]
  {
    forall i | 0 <= i < |ws|
      ensures '|' !in EncodeAll(ws)[i]
    {
      UriComponent.EncodedHasNoSeparator(ws[i]);
    }
  }

  lemma ParseSegment(ws: seq<string>)
    ensures ParseWaypointsSegment(WaypointsSegment(ws)) == Some(EncodeAll(ws))
  {
    if |ws| > 0 {
      var seg := WaypointsSegment(ws);
      assert seg[|WaypointsKey|..] == Join(EncodeAll(ws), '|');
      EncodedWaypointsHaveNoPipe(ws);
      SplitJoin(EncodeAll(ws), '|');
    }
  }

  /**
   * Round trip: splitting a generated URL on its separators and decoding
   * the pieces recovers exactly the origin, the destination and the
   * waypoint list, in order.
   */
  lemma ParseGeneratedUrl(origin: Option<string>, destination: Option<string>, waypoints: seq<string>)
    requires GenerateUrl(origin, destination, waypoints).Ok?
    ensures ParseUrl(GenerateUrl(origin, destination, waypoints).value)
      == Some(Route(origin.value, destination.value, waypoints))
  {
    var eo := UriComponent.Encode(origin.value);
    var ed := UriComponent.Encode(destination.value);
    UriComponent.EncodedHasNoSeparator(origin.value);
    UriComponent.EncodedHasNoSeparator(destination.value);
    UriComponent.DecodeEncode(origin.value);
    UriComponent.DecodeEncode(destination.value);
    ParseSegment(waypoints);
    DecodeAllEncodeAll(waypoints);
    ParseAssembled(eo, ed, WaypointsSegment(waypoints), EncodeAll(waypoints));
  }

  /** Parsing an assembled URL whose pieces hold no `&` finds those pieces again. */
  lemma ParseAssembled(eo: string, ed: string, seg: string, encodedWaypoints: seq<string>)
    requires '&' !in eo && '&' !in ed
    requires ParseWaypointsSegment(seg) == Some(encodedWaypoints)
    ensures ParseUrl(Assemble(eo, ed, seg)) ==
      match (UriComponent.Decode(eo), UriComponent.Decode(ed), DecodeAll(encodedWaypoints))
      case (Some(o), Some(d), Some(ws)) => Some(Route(o, d, ws))
      case _ => None
  {
    var url := Assemble(eo, ed, seg);
    var head := BaseUrl + OriginKey;
    var afterOrigin := DestinationKey + (ed + seg);
    assert url == head + (eo + afterOrigin);
    assert url[|head|..] == eo + afterOrigin;
    assert seg == [] || seg[0] == '&';
    TakeUntilOf(eo, afterOrigin, '&');
    assert afterOrigin[|DestinationKey|..] == ed + seg;
    TakeUntilOf(ed, seg, '&');
  }

  /** Two successful calls that produce the same URL were given the same route. */
  lemma GenerateUrlInjective(o1: Option<string>, d1: Option<string>, w1: seq<string>,
                             o2: Option<string>, d2: Option<string>, w2: seq<string>)
    requires GenerateUrl(o1, d1, w1).Ok? && GenerateUrl(o2, d2, w2).Ok?
    requires GenerateUrl(o1, d1, w1).value == GenerateUrl(o2, d2, w2).value
    ensures o1 == o2 && d1 == d2 && w1 == w2
  {
    ParseGeneratedUrl(o1, d1, w1);
    ParseGeneratedUrl(o2, d2, w2);
  }

  /**
   * Separator counts of a generated URL: `&` appears exactly twice without
   * waypoints (no `&waypoints=` segment at all) and three times with them,
   * and `|` appears exactly once between each pair of consecutive waypoints.
   */
  lemma SeparatorCounts(origin: Option<string>, destination: Option<string>, waypoints: seq<string>)
    requires GenerateUrl(origin, destination, waypoints).Ok?
    ensures var url := GenerateUrl(origin, destination, waypoints).value;
      && Count(url, '&') == (if |waypoints| == 0 then 2 else 3)
      && Count(url, '|') == (if |waypoints| == 0 then 0 else |waypoints| - 1)
  {
    var eo := UriComponent.Encode(origin.value);
    var ed := UriComponent.Encode(destination.value);
    UriComponent.EncodedHasNoSeparator(origin.value);
    UriComponent.EncodedHasNoSeparator(destination.value);
    AssembledCount(eo, ed, WaypointsSegment(waypoints), '&');
    AssembledCount(eo, ed, WaypointsSegment(waypoints), '|');
    SegmentCounts(waypoints);
  }

  /** Outside the waypoint segment, an assembled URL holds two `&` (before the two keys) and no `|`. */
  lemma AssembledCount(eo: string, ed: string, seg: string, c: char)
    requires c == '&' || c == '|'
    requires c !in eo && c !in ed
    ensures Count(Assemble(eo, ed, seg), c) == (if c == '&' then 2 else 0) + Count(seg, c)
  {
    BaseCounts();
    OriginKeyCounts();
    DestinationKeyCounts();
    var p1 := BaseUrl + OriginKey;
    var p2 := p1 + eo;
    var p3 := p2 + DestinationKey;
    var p4 := p3 + ed;
    CountAppend(BaseUrl, OriginKey, c);
    CountAppend(p1, eo, c);
    CountAppend(p2, DestinationKey, c);
    CountAppend(p3, ed, c);
    CountAppend(p4, seg, c);
  }

  /** The waypoint segment holds one `&` (before its key) and `n - 1` pipes, or nothing at all when `n` is 0. */
  lemma SegmentCounts(ws: seq<string>)
    ensures Count(WaypointsSegment(ws), '&') == (if |ws| == 0 then 0 else 1)
    ensures Count(WaypointsSegment(ws), '|') == (if |ws| == 0 then 0 else |ws| - 1)
  {
    if |ws| > 0 {
      var joined := Join(EncodeAll(ws), '|');
      EncodedWaypointsHaveNoPipe(ws);
      JoinCount(EncodeAll(ws), '|');
      NoAmpersandInJoin(EncodeAll(ws), ws);
      WaypointsKeyCounts();
      CountAppend(WaypointsKey, joined, '&');
      CountAppend(WaypointsKey, joined, '|');
    }
  }

  lemma BaseHasNoSeparator(c: char)
    requires c == '&' || c == '|'
    ensures c !in BaseUrl
  {
  }

  /** The base URL holds neither separator. */
  lemma BaseCounts()
    ensures Count(BaseUrl, '&') == 0 && Count(BaseUrl, '|') == 0
  {
    BaseHasNoSeparator('&');
    BaseHasNoSeparator('|');
  }

  lemma OriginKeyCounts()
    ensures Count(OriginKey, '&') == 1 && Count(OriginKey, '|') == 0
  {
    KeyCount(OriginKey, "origin=");
  }

  lemma DestinationKeyCounts()
    ensures Count(DestinationKey, '&') == 1 && Count(DestinationKey, '|') == 0
  {
    KeyCount(DestinationKey, "destination=");
  }

  lemma WaypointsKeyCounts()
    ensures Count(WaypointsKey, '&') == 1 && Count(WaypointsKey, '|') == 0
  {
    KeyCount(WaypointsKey, "waypoints=");
  }

  /** Each key holds one `&`, at its front, and no `|`. */
  lemma KeyCount(key: string, name: string)
    requires key == "&" + name && '&' !in name && '|' !in name
    ensures Count(key, '&') == 1 && Count(key, '|') == 0
  {
    CountAppend("&", name, '&');
    CountAppend("&", name, '|');
  }

  lemma {:induction false} NoAmpersandInJoin(xs: seq<string>, ws: seq<string>)
    requires |xs| >= 1 && xs == EncodeAll(ws)
    ensures '&' !in Join(xs, '|')
    decreases |xs|
  {
    UriComponent.EncodedHasNoSeparator(ws[0]);
    if |xs| > 1 {
      assert xs[1..] == EncodeAll(ws[1..]);
      NoAmpersandInJoin(xs[1..], ws[1..]);
    }
  }

  /** Exactly 23 waypoints are accepted; 24 are refused, naming the limit and the count. */
  lemma WaypointLimitBoundary(origin: string, destination: string, ws23: seq<string>, ws24: seq<string>)
    requires origin != "" && destination != ""
    requires |ws23| == 23 && |ws24| == 24
    ensures GenerateUrl(Some(origin), Some(destination), ws23).Ok?
    ensures GenerateUrl(Some(origin), Some(destination), ws24) == Err(TooManyWaypoints(23, 24))
  {
  }

  /** The message of the limit error for 24 waypoints, with both numbers written out in decimal. */
  lemma LimitMessageExample()
    ensures ErrorMessage(TooManyWaypoints(23, 24))
      == "Error: El límite es de " + "23" + " paradas intermedias. Has enviado " + "24" + "."
  {
    DecimalExamples();
  }

  lemma DecimalExamples()
    ensures Decimal(23) == "23" && Decimal(24) == "24"
  {
    assert Decimal(2) == "2";
  }

  /** The route A → C → D → B: plain letters pass unescaped and the waypoints are joined by a literal pipe. */
  lemma SimpleRouteExample()
    ensures GenerateUrl(Some("A"), Some("B"), ["C", "D"])
      == Ok("https://www.google.com/maps/dir/?api=1&origin=A&destination=B&waypoints=C|D")
  {
    assert UriComponent.Encode("A") == "A";
    assert UriComponent.Encode("B") == "B";
    SimpleRouteSegment();
    SimpleRouteAssembled();
  }

  lemma SimpleRouteSegment()
    ensures WaypointsSegment(["C", "D"]) == "&waypoints=C|D"
  {
    assert UriComponent.Encode("C") == "C";
    assert UriComponent.Encode("D") == "D";
    assert EncodeAll(["C", "D"]) == ["C", "D"];
    assert Join(["C", "D"], '|') == "C|D";
  }

  lemma SimpleRouteAssembled()
    ensures Assemble("A", "B", "&waypoints=C|D")
      == "https://www.google.com/maps/dir/?api=1&origin=A&destination=B&waypoints=C|D"
  {
  }
}
