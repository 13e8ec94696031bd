/** property.py: the structured address with its two enrichment steps (geocoding, then the
    neighbourhood lookup), and the property record the parser builds. */
module Schema {
  import opened Wrappers
  import opened PyStr

  /** A number kept as the digit strings that were matched for it: "45" and "5" for 45.5. */
  datatype Decimal = Decimal(whole: string, fraction: Option<string>)

  /** Python truthiness of an optional float: `None` and zero are false. */
  predicate Truthy(x: Option<real>) {
    x.Some? && x.value != 0.0
  }

  /** Python truthiness of an optional string: `None` and "" are false. */
  predicate Present(s: Option<string>) {
    s.Some? && s.value != []
  }

  // ---- Geocoding (the Geonorge address search) ----

  /** `representasjonspunkt` of one hit; a coordinate is None when it is absent or null. */
  datatype RepPoint = RepPoint(lat: Option<real>, lon: Option<real>)

  /** The outcome of the lookup request: an exception (network failure, a body that is not
      JSON, ...) or a status with the `adresser` list. `adresser` is None when the key is
      absent or null; an element is None when its `representasjonspunkt` is absent or null
      (reading its coordinates then raises). */
  datatype GeoResponse = Raised | Response(status: int, adresser: Option<seq<Option<RepPoint>>>)

  const GeocodeEndpoint: string := "https://ws.geonorge.no/adresser/v1/sok?sok="

  /** The request URL for a search string, with `quote` (URL escaping) left abstract. */
  function GeocodeUrl(search: string, quote: string -> string): string {
    GeocodeEndpoint + quote(search)
  }

  /** The coordinates `resolve_lat_long` takes from a response, if it takes any. */
  function AcceptedPoint(response: GeoResponse): (p: Option<(real, real)>)
    ensures p.Some? ==> response.Response? && response.status == 200
    ensures p.Some? ==> response.adresser.Some? && |response.adresser.value| > 0
  {
    match response
    case Raised => None
    case Response(status, adresser) =>
      if status != 200 || adresser.None? || |adresser.value| == 0 then None
      else match adresser.value[0]
        case None => None
        case Some(RepPoint(lat, lon)) =>
          if lat.Some? && lon.Some? then Some((lat.value, lon.value)) else None
  }

  /** Only the first hit is looked at: the hits after it never matter. */
  lemma {:induction false} AcceptedPointIgnoresLaterHits(status: int, first: Option<RepPoint>, rest1: seq<Option<RepPoint>>, rest2: seq<Option<RepPoint>>)
    ensures AcceptedPoint(Response(status, Some([first] + rest1)))
         == AcceptedPoint(Response(status, Some([first] + rest2)))
  {
  }

  /** Coordinates are accepted only from a 200 response whose first hit carries both. */
  lemma {:induction false} AcceptedPointNeedsBothCoordinates(response: GeoResponse)
    ensures AcceptedPoint(response).Some? <==>
      && response.Response? && response.status == 200
      && response.adresser.Some? && |response.adresser.value| > 0
      && response.adresser.value[0].Some?
      && response.adresser.value[0].value.lat.Some?
      && response.adresser.value[0].value.lon.Some?
  {
  }

  /** The non-empty members of line, postal code and city, in that order: `search_parts`. */
  function SearchParts(line: Option<string>, postalCode: Option<string>, city: Option<string>): (parts: seq<string>)
    ensures |parts| <= 3
    ensures forall i :: 0 <= i < |parts| ==> parts[i] != []
    ensures Present(line) ==> |parts| > 0 && parts[0] == line.value
    ensures Present(city) ==> |parts| > 0 && parts[|parts| - 1] == city.value
  {
    (if Present(line) then [line.value] else [])
    + (if Present(postalCode) then [postalCode.value] else [])
    + (if Present(city) then [city.value] else [])
  }

  /** The search string is empty only when no member is present, and then no request is made. */
  lemma {:induction false} SearchStringEmpty(line: Option<string>, postalCode: Option<string>, city: Option<string>)
    ensures SearchParts(line, postalCode, city) == [] <==> !Present(line) && !Present(postalCode) && !Present(city)
    ensures SearchParts(line, postalCode, city) != [] ==> Join(SearchParts(line, postalCode, city), " ") != []
  {
  }

  /** The three members are joined by single spaces, as in "Jerikoveien 91B 0575 Oslo". */
  lemma {:induction false} SearchStringOfAll(line: string, postalCode: string, city: string)
    requires line != [] && postalCode != [] && city != []
    ensures Join(SearchParts(Some(line), Some(postalCode), Some(city)), " ") == line + " " + postalCode + " " + city
  {
    var parts := [line, postalCode, city];
    assert SearchParts(Some(line), Some(postalCode), Some(city)) == parts;
    assert parts[1..] == [postalCode, city];
    assert parts[1..][1..] == [city];
    assert Join([city], " ") == city;
    assert Join([postalCode, city], " ") == postalCode + " " + city;
    assert Join(parts, " ") == line + " " + (postalCode + " " + city);
    assert line + " " + (postalCode + " " + city) == line + " " + postalCode + " " + city;
  }

  /** An empty member is left out without doubling a space. */
  lemma {:induction false} SearchStringSkipsEmpty(line: string, city: string)
    requires line != [] && city != []
    ensures Join(SearchParts(Some(line), Some([]), Some(city)), " ") == line + " " + city
  {
    var parts := [line, city];
    assert SearchParts(Some(line), Some([]), Some(city)) == parts;
    assert parts[1..] == [city];
  }

  /** A lone member is the whole search string. */
  lemma {:induction false} SearchStringOfOne(postalCode: string)
    requires postalCode != []
    ensures Join(SearchParts(None, Some(postalCode), None), " ") == postalCode
  {
    assert SearchParts(None, Some(postalCode), None) == [postalCode];
  }

  // ---- Neighbourhood lookup over a GeoJSON feature collection ----

  /** One feature: its `geometry` (None when the key is absent) and its `properties`
      (None when absent or null). The geometry type is left abstract. */
  datatype Feature<G> = Feature(geometry: Option<G>, properties: Option<map<string, Option<string>>>)

  /** `geojson_data`, whose `features` list may be absent. */
  datatype FeatureCollection<G> = FeatureCollection(features: Option<seq<Feature<G>>>)

  /** `geojson_data.get("features", [])` */
  function Features<G>(geojson: FeatureCollection<G>): seq<Feature<G>> {
    geojson.features.GetOr([])
  }

  /** What the loop body does with one feature, given the containment test at the point
      (lon, lat): `Some(label)` when it assigns `label` to the neighbourhood, `None` when it
      assigns nothing, because the point is outside or because the geometry lookup, the
      containment test (None) or the properties lookup raised. */
  function Assignment<G>(f: Feature<G>, contains: (G, real, real) -> Option<bool>, lon: real, lat: real): Option<Option<string>> {
    if f.geometry.None? || contains(f.geometry.value, lon, lat) != Some(true) || f.properties.None? then None
    else Some(if "neighbourhood" in f.properties.value then f.properties.value["neighbourhood"] else None)
  }

  /** The neighbourhood after running the loop over `fs` from `current`, front to back. */
  function NeighbourhoodAfter<G>(fs: seq<Feature<G>>, contains: (G, real, real) -> Option<bool>, lon: real, lat: real, current: Option<string>)
    : (r: Option<string>)
    ensures r == current || exists j :: 0 <= j < |fs| && Assignment(fs[j], contains, lon, lat) == Some(r)
    decreases |fs|
  {
    if fs == [] then current
    else
      var next := Assignment(fs[0], contains, lon, lat).GetOr(current);
      var r := NeighbourhoodAfter(fs[1..], contains, lon, lat, next);
      assert forall j :: 0 <= j < |fs[1..]| ==> fs[1..][j] == fs[j + 1];
      r
  }

  /** When no feature assigns, the neighbourhood keeps its previous value. */
  lemma {:induction false} NoAssignmentKeepsNeighbourhood<G>(fs: seq<Feature<G>>, contains: (G, real, real) -> Option<bool>, lon: real, lat: real, current: Option<string>)
    requires forall j :: 0 <= j < |fs| ==> Assignment(fs[j], contains, lon, lat).None?
    ensures NeighbourhoodAfter(fs, contains, lon, lat, current) == current
  {
    if fs != [] {
      assert Assignment(fs[0], contains, lon, lat).None?;
      assert forall j :: 0 <= j < |fs[1..]| ==> fs[1..][j] == fs[j + 1];
      NoAssignmentKeepsNeighbourhood(fs[1..], contains, lon, lat, current);
    }
  }

  /** Last match wins: the result is the label of the last feature that assigns one, even
      when an earlier one also contains the point, and even when that label is None. */
  lemma {:induction false} LastAssignmentWins<G>(fs: seq<Feature<G>>, contains: (G, real, real) -> Option<bool>, lon: real, lat: real, current: Option<string>, k: nat)
    requires k < |fs| && Assignment(fs[k], contains, lon, lat).Some?
    requires forall j :: k < j < |fs| ==> Assignment(fs[j], contains, lon, lat).None?
    ensures NeighbourhoodAfter(fs, contains, lon, lat, current) == Assignment(fs[k], contains, lon, lat).value
  {
    assert forall j :: 0 <= j < |fs[1..]| ==> fs[1..][j] == fs[j + 1];
    var next := Assignment(fs[0], contains, lon, lat).GetOr(current);
    if k == 0 {
      NoAssignmentKeepsNeighbourhood(fs[1..], contains, lon, lat, next);
    } else {
      LastAssignmentWins(fs[1..], contains, lon, lat, next, k - 1);
    }
  }

  // ---- The address and the property record ----

  /** The fields of an `Address` at one moment, as a property record carries them. */
  datatype AddressRecord = AddressRecord(
    line: Option<string>, postalCode: Option<string>, city: Option<string>,
    lat: Option<real>, lon: Option<real>, neighbourhood: Option<string>)

  /** `Address`: built from the split address text, then enriched in place. */
  class Address {
    var line: Option<string>
    var postalCode: Option<string>
    var city: Option<string>
    var lat: Option<real>
    var lon: Option<real>
    var neighbourhood: Option<string>

    /** A neighbourhood is only ever written once both coordinates are set. */
    ghost predicate Valid()
      reads this
    {
      neighbourhood.Some? ==> lat.Some? && lon.Some?
    }

    /** `Address(line=..., postal_code=..., city=...)`; the other fields default to None. */
    constructor (line: Option<string>, postalCode: Option<string>, city: Option<string>)
      ensures Valid()
      ensures this.line == line && this.postalCode == postalCode && this.city == city
      ensures lat.None? && lon.None? && neighbourhood.None?
    {
      this.line := line;
      this.postalCode := postalCode;
      this.city := city;
      lat := None;
      lon := None;
      neighbourhood := None;
    }

    function Record(): AddressRecord
      reads this
    {
      AddressRecord(line, postalCode, city, lat, lon, neighbourhood)
    }

    /** `resolve_lat_long`: with no member to search for it returns None and sends nothing;
        otherwise it sends one lookup for the joined members and, when the response is
        accepted, writes both coordinates and returns them. Any other outcome leaves the
        coordinates as they were. */
    method ResolveLatLong(quote: string -> string, lookup: string -> GeoResponse) returns (r: Option<(real, real)>)
      requires Valid()
      modifies this`lat, this`lon
      ensures Valid()
      ensures SearchParts(line, postalCode, city) == [] ==> r.None?
      ensures SearchParts(line, postalCode, city) != [] ==>
        r == AcceptedPoint(lookup(GeocodeUrl(Join(SearchParts(line, postalCode, city), " "), quote)))
      ensures r.Some? ==> lat == Some(r.value.0) && lon == Some(r.value.1)
      ensures r.None? ==> lat == old(lat) && lon == old(lon)
    {
      var searchParts: seq<string> := [];
      if Present(line) {
        searchParts := searchParts + [line.value];
      }
      if Present(postalCode) {
        searchParts := searchParts + [postalCode.value];
      }
      if Present(city) {
        searchParts := searchParts + [city.value];
      }
      assert searchParts == SearchParts(line, postalCode, city);
      if searchParts == [] {
        return None;
      }
      var searchString := Join(searchParts, " ");
      var response := lookup(GeocodeUrl(searchString, quote));
      if response.Response? && response.status == 200 {
        var adresser := response.adresser;
        if adresser.Some? && |adresser.value| > 0 {
          var repPunkt := adresser.value[0];
          if repPunkt.Some? && repPunkt.value.lat.Some? && repPunkt.value.lon.Some? {
            lat := repPunkt.value.lat;
            lon := repPunkt.value.lon;
            assert AcceptedPoint(response) == Some((lat.value, lon.value));
            return Some((lat.value, lon.value));
          }
        }
      }
      return None;
    }

    /** `find_neighbourhood`: with a missing or zero coordinate nothing happens; otherwise
        the neighbourhood becomes what the loop over the features leaves, testing the point
        (lon, lat) in that order. Only the neighbourhood is written. */
    method FindNeighbourhood<G>(geojson: FeatureCollection<G>, contains: (G, real, real) -> Option<bool>)
      requires Valid()
      modifies this`neighbourhood
      ensures Valid()
      ensures !(Truthy(lat) && Truthy(lon)) ==> neighbourhood == old(neighbourhood)
      ensures Truthy(lat) && Truthy(lon) ==>
        neighbourhood == NeighbourhoodAfter(Features(geojson), contains, lon.value, lat.value, old(neighbourhood))
    {
      if !Truthy(lat) || !Truthy(lon) {
        return;
      }
      var x, y := lon.value, lat.value;
      var features := Features(geojson);
      for i := 0 to |features|
        invariant Valid()
        invariant NeighbourhoodAfter(features[i..], contains, x, y, neighbourhood)
               == NeighbourhoodAfter(features, contains, x, y, old(neighbourhood))
      {
        var feature := features[i];
        assert features[i..][1..] == features[i + 1..];
        if feature.geometry.Some? {
          var inside := contains(feature.geometry.value, x, y);
          if inside == Some(true) && feature.properties.Some? {
            var props := feature.properties.value;
            neighbourhood := if "neighbourhood" in props then props["neighbourhood"] else None;
          }
        }
      }
    }
  }

  /** `Property`. Integer fields hold what the parser read; the three areas hold the matched
      digit strings; `scraped_at` is not part of this model. */
  datatype Property = Property(
    title: Option<string>,
    subtitle: Option<string>,
    descriptionRaw: Option<string>,
    category: Option<string>,
    address: Option<AddressRecord>,
    askingPrice: Option<int>,
    totalPrice: Option<int>,
    transactionCosts: Option<int>,
    communalFees: Option<int>,
    assessedWealthValue: Option<int>,
    sharedDebt: Option<int>,
    sharedEquity: Option<int>,
    propertyType: Option<string>,
    ownershipType: Option<string>,
    bedrooms: Option<int>,
    rooms: Option<int>,
    floor: Option<int>,
    yearBuilt: Option<int>,
    energyLabel: Option<string>,
    areaBraI: Option<Decimal>,
    areaBra: Option<Decimal>,
    plotArea: Option<Decimal>,
    facilities: Option<seq<string>>,
    finnCode: Option<string>,
    url: Option<string>,
    status: Option<string>,
    rawMeta: Option<map<string, string>>)

  /** The fields of `Property`, named as the model class declares them. */
  datatype Field =
    | Title | Subtitle | DescriptionRaw | Category | AddressField
    | AskingPrice | TotalPrice | TransactionCosts | CommunalFees
    | AssessedWealthValue | SharedDebt | SharedEquity
    | PropertyType | OwnershipType | Bedrooms | Rooms | Floor | YearBuilt
    | EnergyLabel | AreaBraI | AreaBra | PlotArea | Facilities
    | FinnCode | Url | StatusField | ScrapedAt | RawMeta

  /** The fields of `Property`, in declaration order. */
  const PropertyFields: seq<Field> := [
    Title, Subtitle, DescriptionRaw, Category, AddressField,
    AskingPrice, TotalPrice, TransactionCosts, CommunalFees,
    AssessedWealthValue, SharedDebt, SharedEquity,
    PropertyType, OwnershipType, Bedrooms, Rooms, Floor, YearBuilt,
    EnergyLabel, AreaBraI, AreaBra, PlotArea, Facilities,
    FinnCode, Url, StatusField, ScrapedAt, RawMeta]

  /** The only field declared with a default. */
  const DefaultedFields: set<Field> := {ScrapedAt}

  /** The fields among `fields` that a construction passing `passed` leaves without a value
      and without a default. */
  function MissingAmong(fields: seq<Field>, passed: set<Field>): (missing: seq<Field>)
    ensures forall f :: f in missing <==> f in fields && f !in DefaultedFields && f !in passed
    ensures |missing| <= |fields|
  {
    if fields == [] then []
    else
      (if fields[0] in DefaultedFields || fields[0] in passed then [] else [fields[0]])
      + MissingAmong(fields[1..], passed)
  }

  /** Pydantic (v2) model validation of `Property(**kwargs)` where `passed` is the set of
      keyword names: a field without a default is required even when its type admits None,
      and leaving one out raises a validation error naming the missing fields. */
  function ValidateProperty(passed: set<Field>, candidate: Property): (r: Result<Property, seq<Field>>)
    ensures r.Ok? ==> r.value == candidate
    ensures r.Err? ==> r.error != []
  {
    var missing := MissingAmong(PropertyFields, passed);
    if missing == [] then Ok(candidate) else Err(missing)
  }

  /** Validation succeeds exactly when every field without a default was passed, and an
      error names only such fields. */
  lemma {:induction false} ValidationNeedsEveryRequiredField(passed: set<Field>, candidate: Property)
    ensures ValidateProperty(passed, candidate).Ok? <==>
      forall f :: f in PropertyFields && f !in DefaultedFields ==> f in passed
    ensures var r := ValidateProperty(passed, candidate);
      r.Err? ==> forall f :: f in r.error ==> f in PropertyFields && f !in DefaultedFields && f !in passed
  {
    var missing := MissingAmong(PropertyFields, passed);
    if missing != [] {
      assert missing[0] in missing;
    }
  }
}
