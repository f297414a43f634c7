/**
 * The pure parts of the admin dashboard's stop list: the valid-stop filter
 * and the 23-stop limit flag, the link the dashboard builds from the valid
 * stops, the drag-and-drop reorder, and the marker label of a stop.
 */
module Dashboard {
  import opened JsValues
  import OrderValidator
  import RouteGenerator

  /** A latitude/longitude pair; the values are opaque to the list logic. */
  datatype Coord = Coord(lat: real, lng: real)

  /** Why a stop is invalid: a validator message, or one of the two messages the spreadsheet import adds. */
  datatype Problem =
    | FieldProblem(error: OrderValidator.FieldError)
    | EmptyAddress
    | GeocodingFailed

  /** The text shown for a problem: the validator's own message, or one of the two import messages. */
  function ProblemText(p: Problem): (t: string)
    ensures p.FieldProblem? ==> t == OrderValidator.Message(p.error)
    ensures !p.FieldProblem? ==> forall e :: t != OrderValidator.Message(e)
  {
    match p
    case FieldProblem(e) => OrderValidator.Message(e)
    case EmptyAddress =>
      assert forall e :: |OrderValidator.Message(e)| != 16;
      "Dirección vacía."
    case GeocodingFailed =>
      assert forall e :: |OrderValidator.Message(e)| != 48;
      "Error de Geocodificación o falta de coordenadas."
  }

  /** Each text names one problem, so a stop's messages can be read back as reasons. */
  lemma ProblemTextInjective(p1: Problem, p2: Problem)
    requires ProblemText(p1) == ProblemText(p2)
    ensures p1 == p2
  {
    if p1.FieldProblem? && p2.FieldProblem? {
      OrderValidator.MessageInjective(p1.error, p2.error);
    } else if !p1.FieldProblem? && !p2.FieldProblem? {
      assert |ProblemText(EmptyAddress)| == 16;
      assert |ProblemText(GeocodingFailed)| == 48;
    }
  }

  /** One entry of the dashboard's `locations` state. */
  datatype Location = Location(
    id: string,
    cliente: string,
    telefono: string,
    direccion: string,
    coord: Coord,
    demand: int,
    isValid: bool,
    errors: seq<Problem>,
    address: string)

  // ---------------------------------------------------------------------
  // Valid stops and the limit flag
  // ---------------------------------------------------------------------

  /** `locations.filter(loc => loc.isValid)`. */
  function ValidLocations(locs: seq<Location>): (r: seq<Location>)
    ensures |r| <= |locs|
    ensures forall i :: 0 <= i < |r| ==> r[i].isValid
  {
    if locs == [] then []
    else (if locs[0].isValid then [locs[0]] else []) + ValidLocations(locs[1..])
  }

  /** `locations.filter(l => !l.isValid)`. */
  function InvalidLocations(locs: seq<Location>): (r: seq<Location>)
    ensures |r| <= |locs|
    ensures forall i :: 0 <= i < |r| ==> !r[i].isValid
  {
    if locs == [] then []
    else (if locs[0].isValid then [] else [locs[0]]) + InvalidLocations(locs[1..])
  }

  /** A location is kept by the valid filter exactly when it is in the list and valid, and by the other filter exactly when it is in the list and invalid. */
  lemma {:induction false} FilterMembership(locs: seq<Location>, x: Location)
    ensures x in ValidLocations(locs) <==> x in locs && x.isValid
    ensures x in InvalidLocations(locs) <==> x in locs && !x.isValid
  {
    if locs != [] {
      FilterMembership(locs[1..], x);
      assert x in locs <==> x == locs[0] || x in locs[1..] by {
        assert locs == [locs[0]] + locs[1..];
      }
    }
  }

  /** `isLimitExceeded`: more valid stops than the link builder accepts. */
  predicate IsLimitExceeded(locs: seq<Location>)
    ensures IsLimitExceeded(locs) ==> |locs| > RouteGenerator.MaxWaypoints
  {
    |ValidLocations(locs)| > RouteGenerator.MaxWaypoints
  }

  /** With both endpoints given, the flag is raised exactly when the link builder would refuse the valid stops. */
  lemma LimitFlagMatchesGenerator(origin: Option<string>, destination: Option<string>, locs: seq<Location>)
    requires Truthy(origin) && Truthy(destination)
    ensures IsLimitExceeded(locs) <==>
      RouteGenerator.GenerateUrl(origin, destination, Addresses(ValidLocations(locs))).Err?
  {
  }

  predicate AllValid(locs: seq<Location>) {
    forall i :: 0 <= i < |locs| ==> locs[i].isValid
  }

  /** `a` occurs in `b` in order, possibly with gaps. */
  predicate IsSubsequence(a: seq<Location>, b: seq<Location>)
    decreases |b|
  {
    if a == [] then true
    else if b == [] then false
    else if a[0] == b[0] then IsSubsequence(a[1..], b[1..])
    else IsSubsequence(a, b[1..])
  }

  /** Both filters keep the order of `locations`. */
  lemma {:induction false} FiltersPreserveOrder(locs: seq<Location>)
    ensures IsSubsequence(ValidLocations(locs), locs)
    ensures IsSubsequence(InvalidLocations(locs), locs)
  {
    if locs != [] {
      FiltersPreserveOrder(locs[1..]);
      var v, w := ValidLocations(locs), InvalidLocations(locs);
      if locs[0].isValid {
        assert v[0] == locs[0] && v[1..] == ValidLocations(locs[1..]);
        assert w == InvalidLocations(locs[1..]);
        assert w != [] ==> w[0] != locs[0];
      } else {
        assert w[0] == locs[0] && w[1..] == InvalidLocations(locs[1..]);
        assert v == ValidLocations(locs[1..]);
        assert v != [] ==> v[0] != locs[0];
      }
    }
  }

  /** Every location is kept by exactly one of the two filters. */
  lemma {:induction false} FiltersPartition(locs: seq<Location>)
    ensures multiset(ValidLocations(locs)) + multiset(InvalidLocations(locs)) == multiset(locs)
    ensures |ValidLocations(locs)| + |InvalidLocations(locs)| == |locs|
  {
    if locs != [] {
      FiltersPartition(locs[1..]);
      assert locs == [locs[0]] + locs[1..];
    }
  }

  /** Filtering a concatenation filters each part. */
  lemma {:induction false} ValidDistributes(a: seq<Location>, b: seq<Location>)
    ensures ValidLocations(a + b) == ValidLocations(a) + ValidLocations(b)
  {
    if a == [] {
      assert a + b == b;
    } else {
      var head := if a[0].isValid then [a[0]] else [];
      assert (a + b)[0] == a[0] && (a + b)[1..] == a[1..] + b;
      ValidDistributes(a[1..], b);
      calc {
        ValidLocations(a + b);
        head + ValidLocations(a[1..] + b);
        head + (ValidLocations(a[1..]) + ValidLocations(b));
        (head + ValidLocations(a[1..])) + ValidLocations(b);
      }
    }
  }

  lemma {:induction false} InvalidDistributes(a: seq<Location>, b: seq<Location>)
    ensures InvalidLocations(a + b) == InvalidLocations(a) + InvalidLocations(b)
  {
    if a == [] {
      assert a + b == b;
    } else {
      var head := if a[0].isValid then [] else [a[0]];
      assert (a + b)[0] == a[0] && (a + b)[1..] == a[1..] + b;
      InvalidDistributes(a[1..], b);
      calc {
        InvalidLocations(a + b);
        head + InvalidLocations(a[1..] + b);
        head + (InvalidLocations(a[1..]) + InvalidLocations(b));
        (head + InvalidLocations(a[1..])) + InvalidLocations(b);
      }
    }
  }

  /**
   * `locations.length === waypointCount` holds exactly when every location
   * is valid, and then the valid list is `locations` itself and the invalid
   * list is empty.
   */
  lemma {:induction false} AllValidFilters(locs: seq<Location>)
    ensures |ValidLocations(locs)| == |locs| <==> AllValid(locs)
    ensures AllValid(locs) ==> ValidLocations(locs) == locs && InvalidLocations(locs) == []
  {
    if locs != [] {
      var tail := locs[1..];
      AllValidFilters(tail);
      assert AllValid(locs) <==> locs[0].isValid && AllValid(tail) by {
        if locs[0].isValid && AllValid(tail) {
          forall i | 0 <= i < |locs| ensures locs[i].isValid {
            if i > 0 { assert locs[i] == tail[i - 1]; }
          }
        }
        if AllValid(locs) {
          forall i | 0 <= i < |tail| ensures tail[i].isValid {
            assert tail[i] == locs[i + 1];
          }
        }
      }
      if locs[0].isValid {
        assert ValidLocations(locs) == [locs[0]] + ValidLocations(tail);
        assert InvalidLocations(locs) == InvalidLocations(tail);
        assert [locs[0]] + tail == locs;
      } else {
        assert ValidLocations(locs) == ValidLocations(tail);
      }
    }
  }

  /**
   * The links the dashboard builds (`handleGenerateGoogleLink`,
   * `handleCopyUrl`): nothing happens without valid stops; otherwise the
   * valid stops' addresses, in list order, are the waypoints.
   */
  function DashboardLink(origin: Option<string>, destination: Option<string>, locs: seq<Location>)
    : (r: Option<RouteGenerator.Result<string>>)
    ensures r.None? <==> ValidLocations(locs) == []
    ensures r.Some? && Truthy(origin) && Truthy(destination) ==>
      (r.value.Err? <==> IsLimitExceeded(locs))
    ensures r.Some? && Truthy(origin) && Truthy(destination) && IsLimitExceeded(locs) ==>
      r.value == RouteGenerator.Err(RouteGenerator.TooManyWaypoints(23, |ValidLocations(locs)|))
    ensures r.Some? && (!Truthy(origin) || !Truthy(destination)) ==>
      r.value == RouteGenerator.Err(RouteGenerator.MissingEndpoints)
    ensures r.Some? && r.value.Ok? ==>
      RouteGenerator.ParseUrl(r.value.value)
        == Some(RouteGenerator.Route(origin.value, destination.value, Addresses(ValidLocations(locs))))
  {
    var valid := ValidLocations(locs);
    if |valid| == 0 then None
    else
      var link := RouteGenerator.GenerateUrl(origin, destination, Addresses(valid));
      if link.Ok? then
        RouteGenerator.ParseGeneratedUrl(origin, destination, Addresses(valid));
        Some(link)
      else Some(link)
  }

  /** `validLocations.map(loc => loc.address)`. */
  function Addresses(locs: seq<Location>): (r: seq<string>)
    ensures |r| == |locs|
    ensures forall i :: 0 <= i < |locs| ==> r[i] == locs[i].address
  {
    if locs == [] then [] else [locs[0].address] + Addresses(locs[1..])
  }

  // ---------------------------------------------------------------------
  // Drag and drop
  // ---------------------------------------------------------------------

  /** `items.splice(i, 1)`. */
  function RemoveAt(s: seq<Location>, i: nat): (r: seq<Location>)
    requires i < |s|
    ensures |r| == |s| - 1
  {
    s[..i] + s[i + 1..]
  }

  /** Items before `i` stay in place; items after it move one position left. */
  lemma RemoveAtIndices(s: seq<Location>, i: nat)
    requires i < |s|
    ensures forall k :: 0 <= k < i ==> RemoveAt(s, i)[k] == s[k]
    ensures forall k :: i <= k < |s| - 1 ==> RemoveAt(s, i)[k] == s[k + 1]
  {
  }

  /** `items.splice(j, 0, x)`. */
  function InsertAt(s: seq<Location>, j: nat, x: Location): (r: seq<Location>)
    requires j <= |s|
    ensures |r| == |s| + 1
    ensures r[j] == x
  {
    s[..j] + [x] + s[j..]
  }

  /** Items before `j` stay in place; items from `j` on move one position right. */
  lemma InsertAtIndices(s: seq<Location>, j: nat, x: Location)
    requires j <= |s|
    ensures forall k :: 0 <= k < j ==> InsertAt(s, j, x)[k] == s[k]
    ensures forall k :: j <= k < |s| ==> InsertAt(s, j, x)[k + 1] == s[k]
  {
  }

  /** The two splices of a drag: take the item at `i` out, put it back in at `j`. */
  function Move(s: seq<Location>, i: nat, j: nat): (r: seq<Location>)
    requires i < |s| && j < |s|
    ensures |r| == |s|
    ensures r[j] == s[i]
    ensures RemoveAt(r, j) == RemoveAt(s, i)
    ensures multiset(r) == multiset(s)
  {
    var rest := RemoveAt(s, i);
    var x := s[i];
    var r := InsertAt(rest, j, x);
    assert r[..j] + r[j + 1..] == rest by {
      assert r[..j] == rest[..j];
      assert r[j + 1..] == rest[j..];
      assert rest == rest[..j] + rest[j..];
    }
    calc {
      multiset(r);
      multiset(rest[..j]) + multiset([x]) + multiset(rest[j..]);
      { assert rest == rest[..j] + rest[j..]; }
      multiset(rest) + multiset([x]);
      multiset(s[..i]) + multiset(s[i + 1..]) + multiset([x]);
      { assert s == s[..i] + [x] + s[i + 1..]; }
      multiset(s);
    }
    r
  }

  /** Where each item of a moved list came from: the items between the two positions shift by one towards the gap. */
  lemma MoveIndices(s: seq<Location>, i: nat, j: nat)
    requires i < |s| && j < |s|
    ensures forall k :: 0 <= k < |s| ==> (Move(s, i, j)[k] ==
      if k == j then s[i]
      else if i <= k < j then s[k + 1]
      else if j < k <= i then s[k - 1]
      else s[k])
  {
    var rest := RemoveAt(s, i);
    var r := Move(s, i, j);
    assert r == rest[..j] + [s[i]] + rest[j..];
    forall k | 0 <= k < |s|
      ensures r[k] ==
        if k == j then s[i]
        else if i <= k < j then s[k + 1]
        else if j < k <= i then s[k - 1]
        else s[k]
    {
      if k < j {
        assert r[k] == rest[k];
        assert rest[k] == if k < i then s[k] else s[k + 1];
      } else if k > j {
        assert r[k] == rest[k - 1];
        assert rest[k - 1] == if k - 1 < i then s[k - 1] else s[k];
      }
    }
  }

  /** Dragging the item back from `j` to `i` undoes a drag from `i` to `j`. */
  lemma MoveBack(s: seq<Location>, i: nat, j: nat)
    requires i < |s| && j < |s|
    ensures Move(Move(s, i, j), j, i) == s
  {
    var r := Move(s, i, j);
    var rest := RemoveAt(r, j);
    assert rest == RemoveAt(s, i);
    calc {
      Move(r, j, i);
      InsertAt(rest, i, r[j]);
      rest[..i] + [s[i]] + rest[i..];
      { assert rest[..i] == s[..i] && rest[i..] == s[i + 1..]; }
      s[..i] + [s[i]] + s[i + 1..];
      s;
    }
  }

  /** A drag only rearranges: moving within a list of valid stops leaves only valid stops. */
  lemma MoveKeepsValid(s: seq<Location>, i: nat, j: nat)
    requires i < |s| && j < |s|
    requires AllValid(s)
    ensures AllValid(Move(s, i, j))
  {
    var r := Move(s, i, j);
    forall k | 0 <= k < |r| ensures r[k].isValid {
      assert r[k] in multiset(r);
      assert r[k] in multiset(s);
      var m :| 0 <= m < |s| && s[m] == r[k];
    }
  }

  /** Every valid entry comes before every invalid one. */
  predicate ValidFirst(locs: seq<Location>) {
    forall i, j :: 0 <= i < j < |locs| && locs[j].isValid ==> locs[i].isValid
  }

  /** A drag as `react-beautiful-dnd` reports it: indices into the rendered (valid) list; no destination when dropped outside. */
  datatype DropResult = DropResult(sourceIndex: nat, destination: Option<nat>)

  /** `handleDragEnd(result)`: the new `locations`. */
  function DragEnd(locs: seq<Location>, drop: DropResult): (r: seq<Location>)
    requires drop.destination.Some? ==>
      drop.sourceIndex < |ValidLocations(locs)| && drop.destination.value < |ValidLocations(locs)|
    ensures multiset(r) == multiset(locs)
    ensures drop.destination.None? ==> r == locs
    ensures drop.destination.Some? ==>
      && ValidLocations(r) == Move(ValidLocations(locs), drop.sourceIndex, drop.destination.value)
      && InvalidLocations(r) == InvalidLocations(locs)
      && ValidFirst(r)
    ensures drop.destination.Some? && AllValid(locs) ==>
      r == Move(locs, drop.sourceIndex, drop.destination.value)
  {
    if drop.destination.None? then locs
    else
      var src := drop.sourceIndex;
      var dst := drop.destination.value;
      var valid := ValidLocations(locs);
      AllValidFilters(locs);
      FiltersPartition(locs);
      if |locs| == |valid| then
        MoveKeepsValid(locs, src, dst);
        OnlyValid(Move(locs, src, dst));
        Move(locs, src, dst)
      else
        OnlyValid(valid);
        MoveKeepsValid(valid, src, dst);
        Splice(Move(valid, src, dst), InvalidLocations(locs));
        Move(valid, src, dst) + InvalidLocations(locs)
  }

  lemma {:induction false} OnlyValid(locs: seq<Location>)
    requires AllValid(locs)
    ensures ValidLocations(locs) == locs && InvalidLocations(locs) == []
    ensures ValidFirst(locs)
  {
    AllValidFilters(locs);
  }

  lemma {:induction false} OnlyInvalid(locs: seq<Location>)
    requires forall i :: 0 <= i < |locs| ==> !locs[i].isValid
    ensures ValidLocations(locs) == [] && InvalidLocations(locs) == locs
  {
    if locs != [] {
      OnlyInvalid(locs[1..]);
      assert [locs[0]] + locs[1..] == locs;
    }
  }

  /** Valid stops followed by invalid ones: the two filters give back the two parts. */
  lemma Splice(valid: seq<Location>, invalid: seq<Location>)
    requires AllValid(valid)
    requires forall i :: 0 <= i < |invalid| ==> !invalid[i].isValid
    ensures ValidLocations(valid + invalid) == valid
    ensures InvalidLocations(valid + invalid) == invalid
    ensures ValidFirst(valid + invalid)
  {
    OnlyValid(valid);
    OnlyInvalid(invalid);
    ValidDistributes(valid, invalid);
    InvalidDistributes(valid, invalid);
  }

  /** A list whose valid entries come first is its valid part followed by its invalid part. */
  lemma {:induction false} ValidFirstSplits(locs: seq<Location>)
    requires ValidFirst(locs)
    ensures locs == ValidLocations(locs) + InvalidLocations(locs)
  {
    if locs != [] {
      if locs[0].isValid {
        ValidFirstTail(locs);
        ValidFirstSplits(locs[1..]);
        ValidHeadSplits(locs);
      } else {
        InvalidHeadSplits(locs);
      }
    }
  }

  lemma ValidHeadSplits(locs: seq<Location>)
    requires locs != [] && locs[0].isValid
    requires locs[1..] == ValidLocations(locs[1..]) + InvalidLocations(locs[1..])
    ensures locs == ValidLocations(locs) + InvalidLocations(locs)
  {
    var tail := locs[1..];
    var v, w := ValidLocations(tail), InvalidLocations(tail);
    assert ValidLocations(locs) == [locs[0]] + v;
    assert InvalidLocations(locs) == w;
    ConcatAssoc([locs[0]], v, w);
    assert [locs[0]] + tail == locs;
  }

  /** Regrouping a concatenation; as a separate lemma it keeps the caller's proof small. */
  lemma ConcatAssoc(a: seq<Location>, b: seq<Location>, c: seq<Location>)
    ensures (a + b) + c == a + (b + c)
  {
  }

  lemma InvalidHeadSplits(locs: seq<Location>)
    requires locs != [] && ValidFirst(locs) && !locs[0].isValid
    ensures locs == ValidLocations(locs) + InvalidLocations(locs)
  {
    InvalidHeadAllInvalid(locs);
    OnlyInvalid(locs);
  }

  lemma ValidFirstTail(locs: seq<Location>)
    requires locs != [] && ValidFirst(locs)
    ensures ValidFirst(locs[1..])
  {
    var tail := locs[1..];
    forall i, j | 0 <= i < j < |tail| && tail[j].isValid ensures tail[i].isValid {
      assert locs[j + 1] == tail[j] && locs[i + 1] == tail[i];
    }
  }

  lemma InvalidHeadAllInvalid(locs: seq<Location>)
    requires locs != [] && ValidFirst(locs) && !locs[0].isValid
    ensures forall i :: 0 <= i < |locs| ==> !locs[i].isValid
  {
  }

  /** On a list whose valid stops already come first, dragging a stop back to where it was restores the list. */
  lemma DragBack(locs: seq<Location>, i: nat, j: nat)
    requires ValidFirst(locs)
    requires i < |ValidLocations(locs)| && j < |ValidLocations(locs)|
    ensures DragEnd(DragEnd(locs, DropResult(i, Some(j))), DropResult(j, Some(i))) == locs
  {
    var once := DragEnd(locs, DropResult(i, Some(j)));
    var twice := DragEnd(once, DropResult(j, Some(i)));
    MoveBack(ValidLocations(locs), i, j);
    assert ValidLocations(twice) == ValidLocations(locs);
    assert InvalidLocations(twice) == InvalidLocations(locs);
    ValidFirstSplits(twice);
    ValidFirstSplits(locs);
  }

  // ---------------------------------------------------------------------
  // Marker labels
  // ---------------------------------------------------------------------

  /** `vs.findIndex(v => v.id === id)`: the first position holding `id`, or -1. */
  function FindIndexById(vs: seq<Location>, id: string): (k: int)
    ensures -1 <= k < |vs|
    ensures k >= 0 ==> vs[k].id == id && forall m :: 0 <= m < k ==> vs[m].id != id
    ensures k == -1 <==> forall m :: 0 <= m < |vs| ==> vs[m].id != id
  {
    if vs == [] then -1
    else if vs[0].id == id then 0
    else
      var k := FindIndexById(vs[1..], id);
      if k == -1 then -1 else k + 1
  }

  /** What a map marker shows: a cross, a 1-based stop number, or nothing. */
  datatype MarkerLabel = Cross | StopNumber(n: nat) | NoNumber

  /** The label choice of `getCustomIcon(loc)`. */
  function MarkerLabelOf(locs: seq<Location>, loc: Location): (m: MarkerLabel)
    ensures m == Cross <==> !loc.isValid
    ensures m.StopNumber? ==>
      var vs := ValidLocations(locs);
      && 1 <= m.n <= |vs|
      && vs[m.n - 1].id == loc.id
      && forall k :: 0 <= k < m.n - 1 ==> vs[k].id != loc.id
    ensures loc.isValid && loc in locs ==> m.StopNumber?
  {
    if !loc.isValid then Cross
    else
      var vs := ValidLocations(locs);
      var k := FindIndexById(vs, loc.id);
      if k != -1 then StopNumber(k + 1)
      else
        FilterMembership(locs, loc);
        NoNumber
  }

  /** With distinct ids among the valid stops, the marker of the `k`-th valid stop shows `k + 1`. */
  lemma MarkerShowsPosition(locs: seq<Location>, k: nat)
    requires k < |ValidLocations(locs)|
    requires forall a, b :: 0 <= a < b < |ValidLocations(locs)| ==>
      ValidLocations(locs)[a].id != ValidLocations(locs)[b].id
    ensures MarkerLabelOf(locs, ValidLocations(locs)[k]) == StopNumber(k + 1)
  {
  }
}
