/** French cities with geocoding data. */
module Cities {
  import opened Wrappers
  import opened Geo
  import opened QuerySets

  datatype City = City(
    name: string,
    slug: string,
    department: string,
    postCodes: seq<string>,
    codeInsee: string,
    coords: Option<Point>)

  /** An entry of the ordered `REGIONS` table: a region and the codes of its departments. */
  datatype RegionDepartments = RegionDepartments(region: string, departments: seq<string>)

  /** `ActiveCityManager.get_queryset`: the cities of the configured test departments. */
  function ActiveCities(cities: seq<City>, testDepartments: seq<string>): (r: seq<City>)
    ensures forall c :: multiset(r)[c] == if c.department in testDepartments then multiset(cities)[c] else 0
  {
    Filter(cities, (c: City) => c.department in testDepartments)
  }

  /**
   * `City.display_name`, which is also `City.__str__`: the name, then the department in
   * parentheses; with a department free of '(' both can be read back.
   */
  function DisplayName(city: City): (s: string)
    ensures '(' !in city.department ==> ParseDisplayName(s) == Some((city.name, city.department))
  {
    var s := city.name + " (" + city.department + ")";
    if '(' in city.department then s else (DisplayNameRoundTrip(city.name, city.department); s)
  }

  /** The position of the last `c` in `s`, if any. */
  function LastIndexOf(s: string, c: char): (k: Option<nat>)
    ensures k.Some? ==> k.value < |s| && s[k.value] == c && forall j :: k.value < j < |s| ==> s[j] != c
    ensures k.None? ==> forall j :: 0 <= j < |s| ==> s[j] != c
  {
    if s == [] then None
    else if s[|s| - 1] == c then Some(|s| - 1)
    else LastIndexOf(s[..|s| - 1], c)
  }

  /** Reads a display name back: the name before the last " (", the department up to the final ")". */
  function ParseDisplayName(text: string): Option<(string, string)>
  {
    var k := LastIndexOf(text, '(');
    if k.Some? && k.value >= 1 && text[k.value - 1] == ' ' && text[|text| - 1] == ')'
    then Some((text[..k.value - 1], text[k.value + 1..|text| - 1]))
    else None
  }

  /** A name and a department code free of '(' written as "<name> (<department>)" read back. */
  lemma DisplayNameRoundTrip(name: string, department: string)
    requires '(' !in department
    ensures ParseDisplayName(name + " (" + department + ")") == Some((name, department))
  {
    var text := name + " (" + department + ")";
    var n := |name|;
    assert text[n + 1] == '(';
    assert text[n + 2..] == department + ")";
    assert text[..n] == name;
    assert text[n + 2..|text| - 1] == department;
    var k := LastIndexOf(text, '(');
    assert k == Some(n + 1);
  }

  /** `City.latitude`: the y of the point, None without coordinates. */
  function Latitude(city: City): (latitude: Option<real>)
    ensures latitude.Some? <==> city.coords.Some?
    ensures latitude.Some? ==> latitude.value == city.coords.value.y
  {
    if city.coords.Some? then Some(city.coords.value.y) else None
  }

  /** `City.longitude`: the x of the point, None without coordinates. */
  function Longitude(city: City): (longitude: Option<real>)
    ensures longitude.Some? <==> city.coords.Some?
    ensures longitude.Some? ==> longitude.value == city.coords.value.x
  {
    if city.coords.Some? then Some(city.coords.value.x) else None
  }

  /** Latitude and longitude are given exactly when the city has coordinates, and rebuild its point. */
  lemma CoordinatesRoundTrip(city: City)
    ensures Latitude(city).None? <==> city.coords.None?
    ensures Longitude(city).None? <==> city.coords.None?
    ensures city.coords.Some? ==> city.coords == Some(Point(Longitude(city).value, Latitude(city).value))
  {
  }

  /** The position of the first entry of `regions` that lists `department`; |regions| when none does. */
  function FirstRegionListing(department: string, regions: seq<RegionDepartments>): (k: nat)
    ensures k <= |regions|
    ensures forall j :: 0 <= j < k ==> department !in regions[j].departments
    ensures k < |regions| ==> department in regions[k].departments
  {
    if regions == [] then 0
    else if department in regions[0].departments then 0
    else 1 + FirstRegionListing(department, regions[1..])
  }

  /**
   * `City.region`: None for an empty department; otherwise the first region, in the table's
   * order, whose departments include the city's, and None when no region lists it.
   */
  function Region(city: City, regions: seq<RegionDepartments>): (r: Option<string>)
    ensures city.department == "" ==> r == None
    ensures r.Some? ==>
              exists k :: 0 <= k < |regions| && regions[k].region == r.value &&
                city.department in regions[k].departments &&
                forall j :: 0 <= j < k ==> city.department !in regions[j].departments
    ensures r.None? && city.department != "" ==>
              forall k :: 0 <= k < |regions| ==> city.department !in regions[k].departments
  {
    if city.department != "" then
      var k := FirstRegionListing(city.department, regions);
      if k < |regions| then Some(regions[k].region) else None
    else None
  }
}
