/**
 * Spreadsheet import (`handleAcceptFile`): every row becomes one dashboard
 * location. The row's cells are completed with fallbacks, validated, and
 * the stop is then geocoded; a stop without coordinates or without a
 * street address is marked invalid, with a message added after the
 * validator's own.
 *
 * The geocoding service is not called here: its answer for each row is an
 * input (`None` when the request fails).
 */
module RowImport {
  import opened JsValues
  import opened OrderValidator
  import opened Dashboard

  /** One row as the spreadsheet reader returns it; every cell may be missing. */
  datatype Row = Row(
    direccion: Option<string>,     // column "dirección"
    address: Option<string>,       // column "address"
    departamento: Option<string>,
    comuna: Option<string>,
    id: Option<string>,
    orderNumber: Option<string>,   // column "order_number"
    cliente: Option<string>,
    telefono: Option<string>,
    lat: Option<real>,
    lng: Option<real>,
    demand: Option<int>)

  /** `r["dirección"] || r["address"] || ""`. */
  function RawAddress(r: Row): (a: string)
    ensures a == "" <==> !Truthy(r.direccion) && !Truthy(r.address)
    ensures Truthy(r.direccion) ==> a == r.direccion.value
    ensures !Truthy(r.direccion) ==> a == OrElse(r.address, "")
  {
    OrElse(r.direccion, OrElse(r.address, ""))
  }

  /** The street address followed by the department and the district, comma separated. */
  function FullAddress(r: Row): (a: string)
    ensures |a| >= |RawAddress(r)| + 4
    ensures a[..|RawAddress(r)|] == RawAddress(r)
    ensures a[|RawAddress(r)|..|RawAddress(r)| + 2] == ", "
    ensures var d := OrElse(r.departamento, ""); var k := |RawAddress(r)| + 2;
      |a| == k + |d| + 2 + |OrElse(r.comuna, "")|
      && a[k..k + |d|] == d && a[k + |d|..k + |d| + 2] == ", "
      && a[k + |d| + 2..] == OrElse(r.comuna, "")
  {
    RawAddress(r) + ", " + OrElse(r.departamento, "") + ", " + OrElse(r.comuna, "")
  }

  /** The full address always holds a comma, so trimming never empties it. */
  lemma FullAddressNeverBlank(r: Row)
    ensures !IsBlank(FullAddress(r))
    ensures Trim(FullAddress(r)) != ""
    ensures !IsBlankField(Some(FullAddress(r)))
  {
    var a := FullAddress(r);
    var k := |RawAddress(r)|;
    assert a[k] == ',';
    NonBlankSurvivesTrim(a, k);
  }

  /** The order record validated for a row; `idTag` stands for the random part of the generated id. */
  function TempOrder(r: Row, idTag: string): (o: Order)
    ensures Truthy(o.id) && Truthy(o.cliente) && Truthy(o.telefono) && Truthy(o.direccion)
    ensures Truthy(r.id) ==> o.id == r.id
    ensures Truthy(r.cliente) ==> o.cliente == r.cliente
    ensures Truthy(r.telefono) ==> o.telefono == r.telefono
    ensures o.id == Some(OrElse(r.id, OrElse(r.orderNumber, "Excel-" + idTag)))
    ensures !Truthy(r.cliente) ==> o.cliente == Some("Cliente Desconocido")
    ensures !Truthy(r.telefono) ==> o.telefono == Some("N/A")
    ensures o.direccion == Some(FullAddress(r))
  {
    Order(
      Some(OrElse(r.id, OrElse(r.orderNumber, "Excel-" + idTag))),
      Some(OrElse(r.cliente, "Cliente Desconocido")),
      Some(OrElse(r.telefono, "N/A")),
      Some(FullAddress(r)))
  }

  /** The client name passes the validator: the cell is missing or empty (and replaced), or holds a non-blank name. */
  predicate ClienteAccepted(r: Row) {
    !Truthy(r.cliente) || !IsBlank(r.cliente.value)
  }

  /**
   * For a spreadsheet row the validator can only complain about the client
   * name, and it does so exactly when the name cell is whitespace only.
   */
  lemma TempOrderValidation(r: Row, idTag: string)
    ensures Validate(TempOrder(r, idTag)).errores ==
      if ClienteAccepted(r) then [] else [MissingCliente]
    ensures Validate(TempOrder(r, idTag)).isValid <==> ClienteAccepted(r)
  {
    var o := TempOrder(r, idTag);
    FullAddressNeverBlank(r);
    if Truthy(r.cliente) {
      TrimEmptyIffBlank(r.cliente.value);
    } else {
      NonBlankSurvivesTrim("Cliente Desconocido", 0);
    }
  }

  /** `r.lat && r.lng`: both coordinate cells present and non-zero. */
  predicate HasSheetCoords(r: Row)
    ensures HasSheetCoords(r) ==> r.lat.Some? && r.lng.Some?
  {
    r.lat.Some? && r.lat.value != 0.0 && r.lng.Some? && r.lng.value != 0.0
  }

  /** Where the stop is drawn when nothing better is known. */
  const Unplaced: Coord := Coord(0.0, 0.0)

  /** `parseInt(r.demand || 0, 10)` on a cell that already holds an integer. */
  function Demand(r: Row): (d: int)
    ensures r.demand.None? ==> d == 0
    ensures r.demand.Some? ==> d == r.demand.value
  {
    if r.demand.Some? then r.demand.value else 0
  }

  /** The validator's messages as location problems, in the same order. */
  function FieldProblems(es: seq<FieldError>): (ps: seq<Problem>)
    ensures |ps| == |es|
    ensures forall i :: 0 <= i < |es| ==> ps[i] == FieldProblem(es[i])
  {
    if es == [] then [] else [FieldProblem(es[0])] + FieldProblems(es[1..])
  }

  /** The location one row becomes, given the geocoding service's answer for its full address. */
  function NormalizeRow(r: Row, idTag: string, geocoded: Option<Coord>): (l: Location)
    ensures l.isValid <==>
      RawAddress(r) != "" && ClienteAccepted(r) && (geocoded.Some? || HasSheetCoords(r))
    ensures l.isValid <==> l.errors == []
    ensures l.isValid ==> l.coord == if geocoded.Some? then geocoded.value else Coord(r.lat.value, r.lng.value)
    ensures !l.isValid ==> l.coord == Unplaced
    ensures l.address == l.direccion == FullAddress(r)
    ensures l.id == TempOrder(r, idTag).id.value && l.cliente == TempOrder(r, idTag).cliente.value
    ensures l.telefono == TempOrder(r, idTag).telefono.value && l.demand == Demand(r)
  {
    var order := TempOrder(r, idTag);
    var v := Validate(order);
    TempOrderValidation(r, idTag);
    var raw := RawAddress(r);
    var base := FieldProblems(v.errores);
    assert base == if ClienteAccepted(r) then [] else [FieldProblem(MissingCliente)];
    var stop := Location(order.id.value, order.cliente.value, order.telefono.value, order.direccion.value,
                         Unplaced, Demand(r), v.isValid, base, FullAddress(r));
    if raw != "" && v.isValid then
      if geocoded.Some? then stop.(coord := geocoded.value)
      else if HasSheetCoords(r) then stop.(coord := Coord(r.lat.value, r.lng.value))
      else stop.(isValid := false, errors := base + [GeocodingFailed])
    else if raw == "" then stop.(isValid := false, errors := base + [EmptyAddress])
    else stop
  }

  /** The validator's client-name message appears exactly when the name cell is whitespace only. */
  lemma NameProblem(r: Row, idTag: string, geocoded: Option<Coord>)
    ensures FieldProblem(MissingCliente) in NormalizeRow(r, idTag, geocoded).errors <==> !ClienteAccepted(r)
  {
    RowErrors(r, idTag, geocoded);
  }

  /** "Dirección vacía." appears exactly when both street-address columns are empty. */
  lemma AddressProblem(r: Row, idTag: string, geocoded: Option<Coord>)
    ensures EmptyAddress in NormalizeRow(r, idTag, geocoded).errors <==> RawAddress(r) == ""
  {
    RowErrors(r, idTag, geocoded);
  }

  /** The geocoding message appears exactly when a row that was geocoded could not be placed. */
  lemma GeocodeProblem(r: Row, idTag: string, geocoded: Option<Coord>)
    ensures GeocodingFailed in NormalizeRow(r, idTag, geocoded).errors <==>
      RawAddress(r) != "" && ClienteAccepted(r) && geocoded.None? && !HasSheetCoords(r)
  {
    RowErrors(r, idTag, geocoded);
  }

  /** No other message can appear on an imported row. */
  lemma NoOtherProblems(r: Row, idTag: string, geocoded: Option<Coord>)
    ensures forall p :: p in NormalizeRow(r, idTag, geocoded).errors ==>
      p == FieldProblem(MissingCliente) || p == EmptyAddress || p == GeocodingFailed
  {
    RowErrors(r, idTag, geocoded);
  }

  /** The messages of a row, case by case. */
  lemma RowErrors(r: Row, idTag: string, geocoded: Option<Coord>)
    ensures RawAddress(r) == "" && ClienteAccepted(r) ==>
      NormalizeRow(r, idTag, geocoded).errors == [EmptyAddress]
    ensures RawAddress(r) == "" && !ClienteAccepted(r) ==>
      NormalizeRow(r, idTag, geocoded).errors == [FieldProblem(MissingCliente), EmptyAddress]
    ensures RawAddress(r) != "" && !ClienteAccepted(r) ==>
      NormalizeRow(r, idTag, geocoded).errors == [FieldProblem(MissingCliente)]
    ensures RawAddress(r) != "" && ClienteAccepted(r) ==>
      NormalizeRow(r, idTag, geocoded).errors ==
        if geocoded.None? && !HasSheetCoords(r) then [GeocodingFailed] else []
  {
    if RawAddress(r) == "" {
      ErrorsWithoutAddress(r, idTag, geocoded);
    } else if !ClienteAccepted(r) {
      ErrorsWithBlankName(r, idTag, geocoded);
    } else {
      ErrorsWhenGeocodable(r, idTag, geocoded);
    }
  }

  lemma ErrorsWithoutAddress(r: Row, idTag: string, geocoded: Option<Coord>)
    requires RawAddress(r) == ""
    ensures ClienteAccepted(r) ==> NormalizeRow(r, idTag, geocoded).errors == [EmptyAddress]
    ensures !ClienteAccepted(r) ==>
      NormalizeRow(r, idTag, geocoded).errors == [FieldProblem(MissingCliente), EmptyAddress]
  {
    RowBaseProblems(r, idTag);
  }

  lemma ErrorsWithBlankName(r: Row, idTag: string, geocoded: Option<Coord>)
    requires RawAddress(r) != "" && !ClienteAccepted(r)
    ensures NormalizeRow(r, idTag, geocoded).errors == [FieldProblem(MissingCliente)]
  {
    RowBaseProblems(r, idTag);
  }

  lemma ErrorsWhenGeocodable(r: Row, idTag: string, geocoded: Option<Coord>)
    requires RawAddress(r) != "" && ClienteAccepted(r)
    ensures NormalizeRow(r, idTag, geocoded).errors ==
      if geocoded.None? && !HasSheetCoords(r) then [GeocodingFailed] else []
  {
    RowBaseProblems(r, idTag);
  }

  /** The validator's part of a row's messages. */
  lemma RowBaseProblems(r: Row, idTag: string)
    ensures FieldProblems(Validate(TempOrder(r, idTag)).errores) ==
      if ClienteAccepted(r) then [] else [FieldProblem(MissingCliente)]
  {
    TempOrderValidation(r, idTag);
  }

  /** Geocoding is attempted only for a row with a street address that passed validation: for any other row its answer is irrelevant. */
  lemma GeocodeOnlyWhenAttempted(r: Row, idTag: string, g1: Option<Coord>, g2: Option<Coord>)
    requires RawAddress(r) == "" || !ClienteAccepted(r)
    ensures NormalizeRow(r, idTag, g1) == NormalizeRow(r, idTag, g2)
  {
    TempOrderValidation(r, idTag);
  }

  /** A successful geocode wins over the coordinate cells; the cells are only a fallback. */
  lemma GeocodeWins(r: Row, idTag: string, c: Coord)
    requires RawAddress(r) != "" && ClienteAccepted(r)
    ensures NormalizeRow(r, idTag, Some(c)).coord == c
    ensures NormalizeRow(r, idTag, Some(c)).isValid
  {
  }

  /** The messages a row collects: the validator's first, then at most one import message. */
  lemma ImportMessagesFollowValidator(r: Row, idTag: string, geocoded: Option<Coord>)
    ensures var es := NormalizeRow(r, idTag, geocoded).errors;
      var vs := FieldProblems(Validate(TempOrder(r, idTag)).errores);
      |vs| <= |es| <= |vs| + 1 && es[..|vs|] == vs
  {
  }

  /** The `for (const r of rows)` loop: one location per row, in row order. */
  function AcceptRows(rows: seq<Row>, idTags: seq<string>, geocoded: seq<Option<Coord>>): (output: seq<Location>)
    requires |idTags| == |rows| && |geocoded| == |rows|
    ensures |output| == |rows|
    ensures forall i :: 0 <= i < |rows| ==> output[i] == NormalizeRow(rows[i], idTags[i], geocoded[i])
  {
    seq(|rows|, i requires 0 <= i < |rows| => NormalizeRow(rows[i], idTags[i], geocoded[i]))
  }

  /**
   * After an import, a stop is valid exactly when it carries no message, and
   * exactly when its row had a street address, an acceptable client name
   * and coordinates from the geocoder or from the sheet.
   */
  lemma ImportedStops(rows: seq<Row>, idTags: seq<string>, geocoded: seq<Option<Coord>>)
    requires |idTags| == |rows| && |geocoded| == |rows|
    ensures forall i :: 0 <= i < |rows| ==>
      var l := AcceptRows(rows, idTags, geocoded)[i];
      && (l.isValid <==> l.errors == [])
      && (l.isValid <==> RawAddress(rows[i]) != "" && ClienteAccepted(rows[i]) &&
                         (geocoded[i].Some? || HasSheetCoords(rows[i])))
  {
  }

  /** The valid stops of an import all carry no message. */
  lemma ValidImportedStopsClean(rows: seq<Row>, idTags: seq<string>, geocoded: seq<Option<Coord>>)
    requires |idTags| == |rows| && |geocoded| == |rows|
    ensures forall k :: 0 <= k < |ValidLocations(AcceptRows(rows, idTags, geocoded))| ==>
      ValidLocations(AcceptRows(rows, idTags, geocoded))[k].errors == []
  {
    var output := AcceptRows(rows, idTags, geocoded);
    ImportedStops(rows, idTags, geocoded);
    forall k | 0 <= k < |ValidLocations(output)|
      ensures ValidLocations(output)[k].errors == []
    {
      var l := ValidLocations(output)[k];
      FilterMembership(output, l);
      var i :| 0 <= i < |output| && output[i] == l;
    }
  }
}
