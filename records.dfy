/**
 * The records the program keeps: one `City` per settlement read from the sheet, and the
 * `SearchStatistics` counters of a run (Program.cs, lines 13-39).
 */
module Records {
  import opened Wrappers

  /** What a provider's query is built from: a settlement's name and point. */
  datatype Place = Place(name: string, latitude: real, longitude: real)

  /** The two outcome fields of a `City`: `Population` and `DataSource`. */
  datatype Entry = Entry(population: Option<int>, dataSource: Option<string>)
  {
    /** A population is stored exactly when a source tag is. */
    predicate Consistent()
    {
      population.Some? == dataSource.Some?
    }
  }

  /**
   * A settlement; coordinates are decimal degrees (C# `double`, kept as `real`). The name
   * and the point are only ever set when the object is created, so they are constants here;
   * the cascade writes only `Population` and `DataSource`.
   */
  class City
  {
    const name: string
    const latitude: real
    const longitude: real
    var population: Option<int>
    var dataSource: Option<string>

    constructor (name: string, latitude: real, longitude: real)
      ensures AsPlace() == Place(name, latitude, longitude)
      ensures Fields() == Entry(None, None)
    {
      this.name := name;
      this.latitude := latitude;
      this.longitude := longitude;
      population := None;
      dataSource := None;
    }

    function AsPlace(): Place
    {
      Place(name, latitude, longitude)
    }

    function Fields(): Entry
      reads this`population, this`dataSource
    {
      Entry(population, dataSource)
    }
  }

  /** The outcome fields of every city of the list, in list order. */
  function Entries(cities: seq<City>): (r: seq<Entry>)
    reads cities
    ensures |r| == |cities|
    ensures forall k :: 0 <= k < |cities| ==> r[k] == cities[k].Fields()
  {
    seq(|cities|, k requires 0 <= k < |cities| reads cities => cities[k].Fields())
  }

  /** No settlement object occurs twice in the list. */
  ghost predicate Distinct(cities: seq<City>)
  {
    cities == [] || (cities[0] !in cities[1..] && Distinct(cities[1..]))
  }

  lemma {:induction false} DistinctApart(cities: seq<City>, j: nat, k: nat)
    requires Distinct(cities) && j < k < |cities|
    ensures cities[j] != cities[k]
  {
    if j == 0 {
      assert cities[k] == cities[1..][k - 1];
    } else {
      DistinctApart(cities[1..], j - 1, k - 1);
    }
  }

  /** A city created after the list was built can be appended without a repeat. */
  lemma {:induction false} DistinctAppend(cities: seq<City>, city: City)
    requires Distinct(cities) && city !in cities
    ensures Distinct(cities + [city])
  {
    if cities != [] {
      assert (cities + [city])[1..] == cities[1..] + [city];
      DistinctAppend(cities[1..], city);
    } else {
      assert ([city])[1..] == [];
    }
  }

  /** The name and point of every city of the list, in list order. */
  function Places(cities: seq<City>): (r: seq<Place>)
    ensures |r| == |cities|
    ensures forall k :: 0 <= k < |cities| ==> r[k] == cities[k].AsPlace()
  {
    seq(|cities|, k requires 0 <= k < |cities| => cities[k].AsPlace())
  }

  lemma PlacesAppend(cities: seq<City>, city: City)
    ensures Places(cities + [city]) == Places(cities) + [city.AsPlace()]
  {
  }

  /** The four outcome buckets, one per way a lookup can end. */
  datatype Counts = Counts(wikidata: int, search: int, osm: int, notFound: int)
  {
    function Total(): int
    {
      wikidata + search + osm + notFound
    }

    predicate NonNegative()
    {
      wikidata >= 0 && search >= 0 && osm >= 0 && notFound >= 0
    }
  }

  class SearchStatistics
  {
    var totalCities: int
    var foundInWikidata: int
    var foundInWiderdataSearch: int
    var foundInOsm: int
    var notFound: int

    constructor ()
      ensures totalCities == 0 && Buckets() == Counts(0, 0, 0, 0)
    {
      totalCities := 0;
      foundInWikidata, foundInWiderdataSearch, foundInOsm, notFound := 0, 0, 0, 0;
    }

    function Buckets(): Counts
      reads this
    {
      Counts(foundInWikidata, foundInWiderdataSearch, foundInOsm, notFound)
    }
  }
}
