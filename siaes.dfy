/** The SIAE model (structures d'insertion par l'activité économique) and its queries. */
module Siaes {
  import opened Wrappers
  import opened Geo
  import opened QuerySets

  datatype SiaeKind = EI | AI | ACI | ETTI | GEIQ | RQ

  datatype Siae = Siae(
    siret: string,
    naf: string,
    kind: SiaeKind,
    name: string,
    brand: string,
    department: string,
    coords: Option<Point>)

  /**
   * The `distance` annotation: the distance from the SIAE's coordinates to `point`, NULL when the
   * SIAE has no coordinates. `distance` stands for the geography distance of the database, in km.
   */
  function AnnotatedDistance(siae: Siae, point: Point, distance: (Point, Point) -> real): Option<real>
  {
    if siae.coords.Some? then Some(distance(siae.coords.value, point)) else None
  }

  /** `coords__distance_lte=(point, D(km=distanceKm))`; a NULL distance never satisfies it. */
  predicate IsWithin(siae: Siae, point: Point, distanceKm: real, distance: (Point, Point) -> real)
  {
    siae.coords.Some? && distance(siae.coords.value, point) <= distanceKm
  }

  /** Ascending order of the SQL `ORDER BY`, NULLs last. */
  predicate NullsLastLe(a: Option<real>, b: Option<real>)
  {
    b.None? || (a.Some? && a.value <= b.value)
  }

  /** `order_by('distance')` over rows annotated with their distance to `point`. */
  function ByDistance(point: Point, distance: (Point, Point) -> real): (Siae, Siae) -> bool
  {
    (a: Siae, b: Siae) => NullsLastLe(AnnotatedDistance(a, point, distance), AnnotatedDistance(b, point, distance))
  }

  lemma ByDistanceIsTotalPreorder(point: Point, distance: (Point, Point) -> real)
    ensures TotalPreorder(ByDistance(point, distance))
  {
  }

  /**
   * `SiaeQuerySet.within(point, distanceKm)`: the SIAEs within `distanceKm` km of `point`,
   * by ascending distance.
   */
  function Within(siaes: seq<Siae>, point: Point, distanceKm: real, distance: (Point, Point) -> real): (r: seq<Siae>)
    ensures forall i :: 0 <= i < |r| ==> r[i].coords.Some? && distance(r[i].coords.value, point) <= distanceKm
    ensures forall i, j :: 0 <= i < j < |r| ==> distance(r[i].coords.value, point) <= distance(r[j].coords.value, point)
    ensures forall s :: multiset(r)[s] == if IsWithin(s, point, distanceKm, distance) then multiset(siaes)[s] else 0
  {
    var inRange := Filter(siaes, (s: Siae) => IsWithin(s, point, distanceKm, distance));
    ByDistanceIsTotalPreorder(point, distance);
    var r := OrderBy(inRange, ByDistance(point, distance));
    SortedInRangeIsAscending(siaes, inRange, r, point, distanceKm, distance);
    r
  }

  lemma SortedInRangeIsAscending(siaes: seq<Siae>, inRange: seq<Siae>, r: seq<Siae>, point: Point, distanceKm: real, distance: (Point, Point) -> real)
    requires forall s :: multiset(inRange)[s] == if IsWithin(s, point, distanceKm, distance) then multiset(siaes)[s] else 0
    requires multiset(r) == multiset(inRange)
    requires SortedBy(r, ByDistance(point, distance))
    ensures forall i :: 0 <= i < |r| ==> r[i].coords.Some? && distance(r[i].coords.value, point) <= distanceKm
    ensures forall i, j :: 0 <= i < j < |r| ==> distance(r[i].coords.value, point) <= distance(r[j].coords.value, point)
  {
    forall i | 0 <= i < |r|
      ensures IsWithin(r[i], point, distanceKm, distance)
    {
      assert r[i] in multiset(inRange);
    }
    forall i, j | 0 <= i < j < |r|
      ensures distance(r[i].coords.value, point) <= distance(r[j].coords.value, point)
    {
      assert ByDistance(point, distance)(r[i], r[j]);
    }
  }

  /** A larger radius gives every SIAE of a smaller one, as often. */
  lemma WithinGrowsWithRadius(siaes: seq<Siae>, point: Point, d1: real, d2: real, distance: (Point, Point) -> real)
    requires d1 <= d2
    ensures multiset(Within(siaes, point, d1, distance)) <= multiset(Within(siaes, point, d2, distance))
  {
    var small, large := Within(siaes, point, d1, distance), Within(siaes, point, d2, distance);
    assert forall s :: multiset(small)[s] <= multiset(large)[s];
  }

  /** `SiaeActiveManager.get_queryset`: the SIAEs of the configured test departments. */
  function ActiveObjects(siaes: seq<Siae>, testDepartments: seq<string>): (r: seq<Siae>)
    ensures forall s :: multiset(r)[s] == if s.department in testDepartments then multiset(siaes)[s] else 0
  {
    Filter(siaes, (s: Siae) => s.department in testDepartments)
  }

  datatype Appellation = Appellation(code: string, name: string, shortName: string)

  /** A job offered by a SIAE: a row of the `SiaeJobs` table. */
  datatype SiaeJob = SiaeJob(appellation: Appellation, siaeSiret: string, rank: nat, isActive: bool)

  /** `order_by('rank', 'appellation__short_name')`. */
  predicate JobOrderLe(a: SiaeJob, b: SiaeJob)
  {
    a.rank < b.rank || (a.rank == b.rank && TextLe(a.appellation.shortName, b.appellation.shortName))
  }

  lemma JobOrderIsTotalPreorder()
    ensures TotalPreorder(JobOrderLe)
  {
    forall a: SiaeJob, b: SiaeJob
      ensures JobOrderLe(a, b) || JobOrderLe(b, a)
    {
      TextLeTotal(a.appellation.shortName, b.appellation.shortName);
    }
    forall a: SiaeJob, b: SiaeJob, c: SiaeJob | JobOrderLe(a, b) && JobOrderLe(b, c)
      ensures JobOrderLe(a, c)
    {
      if a.rank == b.rank == c.rank {
        TextLeTransitive(a.appellation.shortName, b.appellation.shortName, c.appellation.shortName);
      }
    }
  }

  /**
   * The jobs `prefetch_jobs` attaches to `siae`: its active jobs, by rank then by the short name
   * of their appellation.
   */
  function PrefetchJobs(siae: Siae, jobs: seq<SiaeJob>): (r: seq<SiaeJob>)
    ensures forall job :: multiset(r)[job] == if job.siaeSiret == siae.siret && job.isActive then multiset(jobs)[job] else 0
    ensures forall i, j :: 0 <= i < j < |r| ==>
              r[i].rank < r[j].rank ||
              (r[i].rank == r[j].rank && TextLe(r[i].appellation.shortName, r[j].appellation.shortName))
  {
    JobOrderIsTotalPreorder();
    OrderBy(Filter(jobs, (job: SiaeJob) => job.siaeSiret == siae.siret && job.isActive), JobOrderLe)
  }

  /** `Siae.__str__`: the SIRET and the name, separated by a space; a SIRET free of spaces can be read back. */
  function ToString(siae: Siae): (s: string)
    ensures ' ' !in siae.siret ==> ParseString(s) == Some((siae.siret, siae.name))
  {
    var s := siae.siret + " " + siae.name;
    if ' ' in siae.siret then s else (ToStringRoundTrip(siae.siret, siae.name); s)
  }

  /** The position of the first `c` in `s`, if any. */
  function FirstIndexOf(s: string, c: char): (k: Option<nat>)
    ensures k.Some? ==> k.value < |s| && s[k.value] == c && c !in s[..k.value]
    ensures k.None? ==> c !in s
  {
    if s == [] then None
    else if s[0] == c then Some(0)
    else
      var k := FirstIndexOf(s[1..], c);
      if k.Some? then
        assert s[..k.value + 1] == [s[0]] + s[1..][..k.value];
        Some(k.value + 1)
      else None
  }

  /** Reads `__str__` back: the text before the first space, and the text after it. */
  function ParseString(text: string): Option<(string, string)>
  {
    var k := FirstIndexOf(text, ' ');
    if k.Some? then Some((text[..k.value], text[k.value + 1..])) else None
  }

  /** A SIRET (which holds no space) and a name joined by a space split back at the first space. */
  lemma ToStringRoundTrip(siret: string, name: string)
    requires ' ' !in siret
    ensures ParseString(siret + " " + name) == Some((siret, name))
  {
    var text := siret + " " + name;
    var n := |siret|;
    assert text[n] == ' ';
    assert text[..n] == siret;
    assert text[n + 1..] == name;
    var k := FirstIndexOf(text, ' ');
    assert k == Some(n);
  }
}
