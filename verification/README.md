# Nakimi Store route tool — a Dafny model of its pure core

This project models the pure logic at the heart of the Nakimi Store delivery-route front end and proves properties about it. It covers four pieces:

- **The navigation-link builder** (`RouteGenerator.generateUrl`):
  - It checks that an origin and a destination are present and that there are at most 23 intermediate waypoints.
  - It percent-encodes every component on its own, as `encodeURIComponent` does.
  - It joins the encoded waypoints with a literal `|` and splices everything into a Google Maps `dir/?api=1` URL.
  - The model supplies the inverse, `ParseUrl`. It splits such a URL on its separators and percent-decodes the pieces. Round-trip lemmas tie the two together.
  - `encodeURIComponent` itself follows the Encode operation of ECMA-262 (section 19.2.6, URI handling functions): unreserved marks are kept, and every other code point becomes the upper-case `%XX` triplets of its UTF-8 bytes (section 2.1 of RFC 3986). It is modelled together with its inverse, `decodeURIComponent`, and with UTF-8 encoding and decoding of one scalar value.
- **The order validator** (`OrderValidator.validate`):
  - It makes four independent presence checks (id, client name, phone, address).
  - Name and address are trimmed before their check; id and phone are only checked for falsiness.
  - Failures are collected in checking order, and the order is valid exactly when none failed.
  - The shipped mock orders serve as concrete test vectors.
- **The admin dashboard's stop list** (the `HEAD` side of the merge conflict in `App.jsx`):
  - the valid-stop filter and the 23-stop limit flag;
  - the link the dashboard builds from the valid stops;
  - the drag-and-drop reorder, which moves one valid stop and pushes invalid stops to the end;
  - the number shown on a stop's map marker.
- **Spreadsheet import** (`handleAcceptFile`):
  - how one spreadsheet row becomes a dashboard stop: cell fallbacks, the full address, validation, geocoding with the sheet's own coordinates as fallback, and the two extra invalidation messages;
  - the loop over all rows.

JavaScript values are modelled as follows:

- A string field that may be `undefined` or `null` is an `Option<string>`.
- Truthiness is "present and non-empty".
- `a || b` is `OrElse`.
- `trim` strips the ECMAScript WhiteSpace and LineTerminator code points.
- Strings are sequences of Unicode scalar values.

Modules, one per file:

| module | file | what it holds |
|---|---|---|
| `JsValues` | js_values.dfy | `Option`, truthiness, `\|\|` fallback, `trim`, decimal numerals |
| `Utf8` | utf8.dfy | UTF-8 encoding and decoding of one scalar value |
| `UriComponent` | uri_component.dfy | `encodeURIComponent` / `decodeURIComponent` |
| `Delimited` | delimited.dfy | join, split and count on a one-character separator |
| `RouteGenerator` | route_generator.dfy | `generateUrl`, its error cases, and the URL parser it is checked against |
| `OrderValidator` | order_validator.dfy | `validate` |
| `MockOrders` | mock_orders.dfy | the mock order fixtures and their verdicts |
| `Dashboard` | dashboard.dfy | stop list: filters, limit flag, link, drag reorder, marker label |
| `RowImport` | row_import.dfy | spreadsheet row normalisation and the import loop |

Determinism, and the fact that `generateUrl` leaves its input list unchanged, hold by construction: every operation here is a pure function on immutable values.

## Model

| member | source | states |
|---|---|---|
| JsValues.OrElse | frontend/src/App.jsx:244-250 | `v \|\| fallback` on an optional string is the value itself when it is present and non-empty, else the fallback |
| JsValues.TrimStart | frontend/src/utils/OrderValidator.js:16-18 | leading-whitespace removal keeps a suffix that is empty or starts with a non-whitespace character, and drops only whitespace |
| JsValues.TrimEnd | frontend/src/utils/OrderValidator.js:16-18 | trailing-whitespace removal keeps a prefix that is empty or ends with a non-whitespace character, and drops only whitespace |
| JsValues.Trim | frontend/src/utils/OrderValidator.js:16-18 | `s.trim()` is no longer than `s` and is empty or begins and ends with a non-whitespace character |
| JsValues.TrimIsInfix | frontend/src/utils/OrderValidator.js:16-18 | `s.trim()` is the contiguous middle of `s`: everything before it and everything after it is whitespace |
| JsValues.TrimEmptyIffBlank | frontend/src/utils/OrderValidator.js:16-18 | `s.trim() === ""` holds exactly when every character of `s` is whitespace (both directions) |
| JsValues.NonBlankSurvivesTrim | frontend/src/utils/OrderValidator.js:16-18 | a string holding one non-whitespace character is not empty after trimming |
| JsValues.Decimal | frontend/src/utils/RouteGenerator.js:26 | the count in the limit message is written as a numeral of decimal digits, with no leading zero, whose value is the count |
| Utf8.EncodeScalar | frontend/src/utils/RouteGenerator.js:31-32 | a scalar value becomes 1 to 4 bytes: one byte exactly below 0x80, a lead byte announcing the length, then continuation bytes |
| Utf8.DecodeScalar | frontend/src/utils/RouteGenerator.js:31-32 | a byte sequence decodes only if it is the encoding of a scalar value; overlong forms and surrogates are rejected |
| Utf8.DecodeEncodeScalar | frontend/src/utils/RouteGenerator.js:31-32 | decoding the UTF-8 encoding of any scalar value gives it back |
| UriComponent.EscapeByte | frontend/src/utils/RouteGenerator.js:31-32 | a byte is written as `%` followed by the upper-case hex digits of its high and its low four bits |
| UriComponent.Encode | frontend/src/utils/RouteGenerator.js:31-32 | `encodeURIComponent` output consists only of unreserved characters and `%`, and is never shorter than its input |
| UriComponent.EncodeAppend | frontend/src/utils/RouteGenerator.js:31-32 | encoding works character by character: the encoding of `a + b` is the encoding of `a` followed by that of `b` |
| UriComponent.EncodeUnreserved | frontend/src/utils/RouteGenerator.js:31-32 | a string of unreserved characters is left unchanged |
| UriComponent.EncodeConcat | frontend/src/utils/RouteGenerator.js:31-32 | encoding a concatenation of pieces concatenates the pieces' encodings |
| UriComponent.EncodedHasNoSeparator | frontend/src/utils/RouteGenerator.js:29-32 | an encoded component never contains `&`, `=`, `\|`, `?`, `#`, `/` or a space |
| UriComponent.DecodeEncode | frontend/src/utils/RouteGenerator.js:31-32 | `decodeURIComponent(encodeURIComponent(s)) === s` for every string of scalar values |
| UriComponent.EncodeInjective | frontend/src/utils/RouteGenerator.js:31-32 | two different strings never encode to the same component |
| UriComponent.OneByteExamples | frontend/src/utils/RouteGenerator.js:29-32 | a space encodes as `%20` and a pipe as `%7C` |
| UriComponent.TwoByteExample | frontend/src/utils/RouteGenerator.js:29-32 | `ó` encodes as `%C3%B3` |
| UriComponent.ThreeByteExample | frontend/src/utils/RouteGenerator.js:29-32 | `€` encodes as `%E2%82%AC` |
| UriComponent.FourByteExample | frontend/src/utils/RouteGenerator.js:29-32 | U+1F600 encodes as `%F0%9F%98%80` |
| Delimited.TakeUntil | frontend/src/utils/RouteGenerator.js:46 | splitting at the first separator gives a separator-free head, and a tail that is empty or starts with the separator; head and tail concatenate back to the input |
| Delimited.Split | frontend/src/utils/RouteGenerator.js:40 | splitting on a separator gives separator-free parts that join back to the input |
| Delimited.SplitJoin | frontend/src/utils/RouteGenerator.js:40 | splitting `xs.join(sep)` gives back `xs` when no element holds `sep` |
| Delimited.Join | frontend/src/utils/RouteGenerator.js:40 | `xs.join(sep)` is as long as the pieces together plus one separator between each neighbouring pair |
| Delimited.JoinEnds | frontend/src/utils/RouteGenerator.js:40 | a join starts with the first piece followed by the separator (when there is a second piece) and ends with the last piece |
| Delimited.JoinCount | frontend/src/utils/RouteGenerator.js:40 | joining n separator-free parts inserts exactly n−1 separators |
| RouteGenerator.EncodeAll | frontend/src/utils/RouteGenerator.js:39 | `waypoints.map(encodeURIComponent)` encodes each waypoint in place and keeps the list's length and order |
| RouteGenerator.ErrorMessage | frontend/src/utils/RouteGenerator.js:20-27 | both thrown messages begin with `Error: `; the limit message ends with the decimal count that was sent, followed by a full stop |
| RouteGenerator.WaypointsSegment | frontend/src/utils/RouteGenerator.js:36-41 | the waypoint tail is empty exactly for an empty list; otherwise it is `&waypoints=` followed by the encoded waypoints and their n−1 pipes |
| RouteGenerator.AssembleEnds | frontend/src/utils/RouteGenerator.js:44-46 | the URL template starts with the base URL and `&origin=`, ends with the waypoint tail, and is exactly as long as its parts together |
| RouteGenerator.GenerateUrl | frontend/src/utils/RouteGenerator.js:14-49 | a falsy origin or destination gives the endpoints error, even with more than 23 waypoints; otherwise more than 23 waypoints gives the limit error naming 23 and the count; success happens exactly when both endpoints are truthy and there are at most 23 waypoints |
| RouteGenerator.DecodeAllEncodeAll | frontend/src/utils/RouteGenerator.js:39 | decoding the encoded waypoint list gives the original list back |
| RouteGenerator.EncodedWaypointsHaveNoPipe | frontend/src/utils/RouteGenerator.js:39-40 | no encoded waypoint contains the `\|` the waypoints are joined with |
| RouteGenerator.NoAmpersandInJoin | frontend/src/utils/RouteGenerator.js:39-40 | the joined waypoint list contains no `&` |
| RouteGenerator.ParseSegment | frontend/src/utils/RouteGenerator.js:36-41 | the waypoint segment reads back as the encoded waypoints; an empty list yields no segment at all |
| RouteGenerator.ParseAssembled | frontend/src/utils/RouteGenerator.js:45-46 | a URL assembled from `&`-free components is split back into exactly those components |
| RouteGenerator.ParseGeneratedUrl | frontend/src/utils/RouteGenerator.js:29-46 | round trip: splitting a generated URL on its separators and decoding recovers the origin, the destination and the waypoint list, in order |
| RouteGenerator.GenerateUrlInjective | frontend/src/utils/RouteGenerator.js:29-46 | two successful calls that produce the same URL were given the same origin, destination and waypoints |
| RouteGenerator.SeparatorCounts | frontend/src/utils/RouteGenerator.js:36-46 | a generated URL has exactly two `&` without waypoints (no `&waypoints=` segment) and three with them, and exactly n−1 pipes for n waypoints |
| RouteGenerator.SegmentCounts | frontend/src/utils/RouteGenerator.js:36-41 | the waypoint segment holds one `&` and n−1 pipes for n > 0 waypoints, and nothing for none |
| RouteGenerator.AssembledCount | frontend/src/utils/RouteGenerator.js:45-46 | in the assembled URL, the base and keys contribute exactly two `&` and no pipe besides those of the segment |
| RouteGenerator.WaypointLimitBoundary | frontend/src/utils/RouteGenerator.js:18-27 | 23 waypoints are accepted; 24 give the limit error with limit 23 and count 24 |
| RouteGenerator.LimitMessageExample | frontend/src/utils/RouteGenerator.js:26 | for 24 waypoints the message reads "Error: El límite es de 23 paradas intermedias. Has enviado 24." |
| RouteGenerator.SimpleRouteExample | frontend/src/utils/RouteGenerator.js:45-46 | origin A, destination B and waypoints C, D give `https://www.google.com/maps/dir/?api=1&origin=A&destination=B&waypoints=C\|D` |
| OrderValidator.MessageInjective | frontend/src/utils/OrderValidator.js:15-18 | the four messages are pairwise distinct, so a message identifies its check |
| OrderValidator.Collect | frontend/src/utils/OrderValidator.js:12-18 | each failed check contributes its own message and no other; the list is empty exactly when no check failed |
| OrderValidator.Validate | frontend/src/utils/OrderValidator.js:11-24 | `isValid` exactly when the error list is empty; each message appears exactly when its check fails (falsy id or phone; missing or blank name or address) |
| OrderValidator.ErrorOrder | frontend/src/utils/OrderValidator.js:15-18 | messages appear in the order id, name, phone, address; none appears twice, so there are at most four |
| OrderValidator.CollectOrder | frontend/src/utils/OrderValidator.js:12-18 | the collected messages are strictly increasing in checking order, at most four |
| OrderValidator.AllMissing | frontend/src/utils/OrderValidator.js:12-18 | the checks are not short-circuited: an all-missing or all-empty record gets all four messages, in order |
| OrderValidator.WhitespaceNameAndAddressRejected | frontend/src/utils/OrderValidator.js:16-18 | a whitespace-only name and address are both reported missing |
| OrderValidator.WhitespaceIdAndPhoneAccepted | frontend/src/utils/OrderValidator.js:15-17 | a whitespace-only id and phone pass, since they are not trimmed |
| OrderValidator.CompleteOrderIsValid | frontend/src/utils/OrderValidator.js:14-23 | truthy id and phone and a non-blank name and address give a valid order with no messages |
| MockOrders.FilledFixtureIsValid | frontend/src/utils/mockOrders.js:11-45 | a fixture whose four fields are non-empty, with name and address starting with a non-space, is valid with no messages |
| MockOrders.Ped1001IsValid | frontend/src/utils/mockOrders.js:11-17 | PED-1001 is valid with no messages |
| MockOrders.Ped1002IsValid | frontend/src/utils/mockOrders.js:18-24 | PED-1002 is valid with no messages |
| MockOrders.Ped1003IsValid | frontend/src/utils/mockOrders.js:25-31 | PED-1003 is valid with no messages |
| MockOrders.Ped1004IsValid | frontend/src/utils/mockOrders.js:32-38 | PED-1004 is valid with no messages |
| MockOrders.Ped1005IsValid | frontend/src/utils/mockOrders.js:39-45 | PED-1005 is valid with no messages |
| MockOrders.GoodFixturesAreValid | frontend/src/utils/mockOrders.js:11-45 | PED-1001 to PED-1005 are all valid |
| MockOrders.MissingAddressFixture | frontend/src/utils/mockOrders.js:48-54 | PED-ERR-1 is invalid with exactly "Falta Dirección" |
| MockOrders.MissingPhoneFixture | frontend/src/utils/mockOrders.js:55-61 | PED-ERR-2 is invalid with exactly "Falta Teléfono" |
| Dashboard.ProblemText | frontend/src/App.jsx:273-280 | a validator problem is shown with the validator's own message; the two import messages ("Dirección vacía.", "Error de Geocodificación o falta de coordenadas.") differ from every validator message |
| Dashboard.ProblemTextInjective | frontend/src/App.jsx:273-280 | distinct problems have distinct texts, so each message on a stop identifies its reason |
| Dashboard.IsLimitExceeded | frontend/src/App.jsx:175 | the limit flag can only be raised when there are more than 23 stops in total |
| Dashboard.LimitFlagMatchesGenerator | frontend/src/App.jsx:175 | with both endpoints given, the flag is raised exactly when the link builder would refuse the valid stops' addresses |
| Dashboard.ValidLocations | frontend/src/App.jsx:173 | the valid list is no longer than `locations` and holds only valid stops |
| Dashboard.InvalidLocations | frontend/src/App.jsx:420 | the invalid list is no longer than `locations` and holds only invalid stops |
| Dashboard.FilterMembership | frontend/src/App.jsx:173 | a stop is in the valid list exactly when it is in `locations` and valid; likewise for the invalid list |
| Dashboard.FiltersPreserveOrder | frontend/src/App.jsx:173 | both filters keep the relative order of `locations` (each is a subsequence of it) |
| Dashboard.FiltersPartition | frontend/src/App.jsx:173 | every stop is kept by exactly one filter: the two lists together are a permutation of `locations` |
| Dashboard.ValidDistributes | frontend/src/App.jsx:173 | filtering a concatenation for valid stops filters each part |
| Dashboard.InvalidDistributes | frontend/src/App.jsx:420 | filtering a concatenation for invalid stops filters each part |
| Dashboard.AllValidFilters | frontend/src/App.jsx:412 | `locations.length === waypointCount` exactly when every stop is valid, and then the valid list is `locations` itself |
| Dashboard.Addresses | frontend/src/App.jsx:323 | the waypoints are the valid stops' addresses, one per stop, in order |
| Dashboard.DashboardLink | frontend/src/App.jsx:317-323 | no link without valid stops; a missing endpoint gives the endpoints error; with truthy endpoints, the link fails exactly when the limit flag is set, and then with the limit error naming 23 and the valid count; a successful link parses back to the origin, the destination and the valid stops' addresses in list order, so no invalid stop reaches it |
| Dashboard.RemoveAt | frontend/src/App.jsx:415 | `splice(i, 1)` shortens the list by one |
| Dashboard.RemoveAtIndices | frontend/src/App.jsx:415 | after `splice(i, 1)` the items before `i` keep their positions and the later ones move one position left |
| Dashboard.InsertAt | frontend/src/App.jsx:416 | `splice(j, 0, x)` lengthens the list by one and puts `x` at `j` |
| Dashboard.InsertAtIndices | frontend/src/App.jsx:416 | after `splice(j, 0, x)` the items before `j` keep their positions and the others move one position right |
| Dashboard.Move | frontend/src/App.jsx:415-416 | the two splices keep the length, put the dragged item at the destination, and leave the other items in their order (removing it from both lists gives the same list); a permutation |
| Dashboard.MoveIndices | frontend/src/App.jsx:415-416 | after a move, the items between source and destination shift one place towards the gap and all others stay |
| Dashboard.MoveBack | frontend/src/App.jsx:415-416 | dragging the item back from the destination to the source undoes the move |
| Dashboard.MoveKeepsValid | frontend/src/App.jsx:423-424 | moving within the valid list leaves only valid stops |
| Dashboard.Splice | frontend/src/App.jsx:427 | in `[...items, ...invalidItems]` the filters find the two parts again, and valid stops come first |
| Dashboard.DragEnd | frontend/src/App.jsx:404-432 | no destination leaves `locations` unchanged; otherwise the result is a permutation whose valid stops are the moved valid list, whose invalid stops keep their order, and whose valid stops all come first; with no invalid stop it is the move on `locations` itself |
| Dashboard.ValidFirstSplits | frontend/src/App.jsx:419-427 | a list whose valid stops come first is its valid part followed by its invalid part |
| Dashboard.DragBack | frontend/src/App.jsx:404-432 | on a list whose valid stops come first, dragging a stop and then dragging it back restores the list |
| Dashboard.FindIndexById | frontend/src/App.jsx:443 | `findIndex` returns the first position holding the id, or −1 exactly when no position holds it |
| Dashboard.MarkerLabelOf | frontend/src/App.jsx:435-446 | an invalid stop shows a cross; a valid stop shows the 1-based position of the first valid stop with its id, and a valid stop of the list always gets a number |
| Dashboard.MarkerShowsPosition | frontend/src/App.jsx:443-444 | with distinct ids among the valid stops, the k-th valid stop's marker shows k+1 |
| RowImport.RawAddress | frontend/src/App.jsx:244 | the street address is the `dirección` cell when that is truthy, else the `address` cell or ""; it is empty exactly when both address columns are missing or empty |
| RowImport.FullAddress | frontend/src/App.jsx:245 | the full address is the street address, `, `, the department (or nothing), `, ` and the district (or nothing), in that order |
| RowImport.FullAddressNeverBlank | frontend/src/App.jsx:245 | the full address is never blank, so the validator's address message never fires for spreadsheet rows |
| RowImport.TempOrder | frontend/src/App.jsx:246-256 | the order built from a row has all four fields truthy; its id is the `id` cell, else the `order_number` cell, else `Excel-` and the random tag; the name is the cell or "Cliente Desconocido"; the phone is the cell or "N/A"; the address is the full address |
| RowImport.TempOrderValidation | frontend/src/App.jsx:246-257 | for a row, the validator reports at most the name message, exactly when the name cell is whitespace only |
| RowImport.FieldProblems | frontend/src/App.jsx:257 | the validator's messages are carried over one for one, in order |
| RowImport.NormalizeRow | frontend/src/App.jsx:243-290 | a stop is valid exactly when its row has a street address, an accepted name, and geocoded or sheet coordinates; it is valid exactly when it has no messages; a valid stop has the geocoded (else sheet) coordinates and an invalid one is unplaced; its address is the full address; its id, name and phone are the order's and its demand is the row's |
| RowImport.HasSheetCoords | frontend/src/App.jsx:269 | the sheet fallback is taken only when both coordinate cells are present (and non-zero) |
| RowImport.Demand | frontend/src/App.jsx:286 | `parseInt(r.demand \|\| 0, 10)`: a missing demand cell counts as 0, otherwise the cell's value |
| RowImport.RowErrors | frontend/src/App.jsx:262-281 | the exact messages of a row, case by case: "Dirección vacía." after any validator message; the name message alone; the geocoding message alone; or none |
| RowImport.NameProblem | frontend/src/App.jsx:257 | the name message appears exactly when the name cell is whitespace only |
| RowImport.AddressProblem | frontend/src/App.jsx:277-281 | "Dirección vacía." appears exactly when both street-address columns are empty |
| RowImport.GeocodeProblem | frontend/src/App.jsx:262-276 | the geocoding message appears exactly when a geocodable row got no answer and has no sheet coordinates |
| RowImport.NoOtherProblems | frontend/src/App.jsx:257-281 | a row collects no message other than the name, empty-address and geocoding ones |
| RowImport.GeocodeOnlyWhenAttempted | frontend/src/App.jsx:261-262 | for a row without a street address, or with a rejected name, the geocoder's answer changes nothing |
| RowImport.GeocodeWins | frontend/src/App.jsx:262-266 | a successful geocode of a geocodable row places the stop at the answer and makes it valid |
| RowImport.ImportMessagesFollowValidator | frontend/src/App.jsx:273-280 | the validator's messages come first, followed by at most one import message |
| RowImport.AcceptRows | frontend/src/App.jsx:243-291 | one stop per row, in row order: stop i is row i normalised with its own id tag and geocoder answer |
| RowImport.ImportedStops | frontend/src/App.jsx:243-291 | every imported stop is valid exactly when it has no messages, and exactly when its row was geocodable and got coordinates |
| RowImport.ValidImportedStopsClean | frontend/src/App.jsx:173 | every stop in the valid list after an import has no messages |

## Left out

- backend/ is not part of this model. It holds the route solver (JSON over a child process, a foreign optimisation library, floating-point distances), the HTTP routes, geocoding over HTTP, and JSON-file persistence.
- The UI is not modelled: charts, map rendering, styles, hover and press state, login and view switching, `window.open`, the clipboard, `setTimeout`, alerts.
- The driver view is left out because it only composes the validator and the link builder with a fixed origin.
- Geocoding is an input to `RowImport.NormalizeRow`: the service's answer for the row, or `None` when the request fails. The HTTP request itself is not modelled.
- Randomness is left out:
  - The random part of a generated `Excel-…` id is an input (`idTag`).
  - The random coordinates of the mock loader are not modelled, so a stop's coordinates are opaque values.
- Number parsing is left out:
  - The spreadsheet's `lat`, `lng` and `demand` cells are taken as already-parsed numbers, so `parseFloat` and `parseInt` are not modelled.
  - NaN is not modelled: a coordinate cell is truthy when present and non-zero.
- Spreadsheet text cells are modelled as strings. A cell holding a number (a numeric id or phone) is not modelled.
- RouteGenerator.GenerateUrl: a non-array `waypoints` argument, and non-string origins or destinations, are not modelled, because the callers only pass strings and arrays of strings.
- Lone surrogates are left out. Strings are sequences of Unicode scalar values, so the `URIError` that `encodeURIComponent` raises on a lone surrogate cannot arise.
- The console demonstration at the end of RouteGenerator.js is left out. Its input contains long literal addresses. `SimpleRouteExample` and the per-character encoding examples state the same kind of concrete fact on short inputs.
- Dashboard.DragEnd requires both indices to be positions in the valid list. This is the drag library's contract: only valid stops are rendered as draggable items. Out-of-range `splice` indices are not modelled.
- Dashboard.MarkerLabelOf: the third outcome (`NoNumber`, an empty label) only arises for a valid stop that is not in the list. The model shows that no valid stop of the list gets it.
- The mock-data loader and the other side of each merge conflict in App.jsx are not modelled; only the `HEAD` side is.
