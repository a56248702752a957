/** Country helpers (src/utils/countries.ts): the shoppable test and the
    grouping of countries by region. */
module Countries {
  import opened Results
  import opened Sequences

  /** A JSON value as read from the country data. */
  datatype Json = JNumber(n: int) | JString(s: string) | JBool(b: bool) | JNull

  /** The fields of a raw country record that the helpers read; `market` is
      absent for countries without a market. */
  datatype Country = Country(code: string, name: string, region: string, market: Option<Json>)

  /** `countryIsShoppable`: `typeof country.market === 'number'`. A country is
      shoppable exactly when its market is present and is some number. */
  function CountryIsShoppable(c: Country): (r: bool)
    ensures r <==> exists n :: c.market == Some(JNumber(n))
  {
    c.market.Some? && c.market.value.JNumber?
  }

  /** Only a numeric market makes a country shoppable, whatever the number: not a
      missing one, nor a market id written as a string, nor a boolean, nor `null`. */
  lemma ShoppableNeedsNumericMarket(c: Country)
    ensures forall n :: CountryIsShoppable(c.(market := Some(JNumber(n))))
    ensures !CountryIsShoppable(c.(market := None))
    ensures forall s :: !CountryIsShoppable(c.(market := Some(JString(s))))
    ensures forall b :: !CountryIsShoppable(c.(market := Some(JBool(b))))
    ensures !CountryIsShoppable(c.(market := Some(JNull)))
  {
  }

  /** `groupByRegion`: a left fold that appends each country to the list of
      its region, creating the list on the region's first occurrence. */
  function GroupByRegion(countries: seq<Country>): (groups: map<string, seq<Country>>)
    ensures forall region :: region in groups <==> exists i :: 0 <= i < |countries| && countries[i].region == region
  {
    if countries == [] then map[]
    else
      var front, c := countries[..|countries| - 1], countries[|countries| - 1];
      var groups := GroupByRegion(front);
      assert forall i :: 0 <= i < |front| ==> front[i] == countries[i];
      groups[c.region := (if c.region in groups then groups[c.region] else []) + [c]]
  }

  /** The countries of one region, in input order. */
  function InRegion(countries: seq<Country>, region: string): seq<Country>
  {
    Filter(countries, (c: Country) => c.region == region)
  }

  /** Each group holds exactly the countries of its region, in input order. */
  lemma {:induction false} GroupIsRegion(countries: seq<Country>)
    ensures forall region :: region in GroupByRegion(countries) ==>
              GroupByRegion(countries)[region] == InRegion(countries, region)
  {
    if countries != [] {
      var front, c := countries[..|countries| - 1], countries[|countries| - 1];
      assert countries == front + [c];
      GroupIsRegion(front);
      var groups := GroupByRegion(front);
      forall region | region in GroupByRegion(countries)
        ensures GroupByRegion(countries)[region] == InRegion(countries, region)
      {
        FilterAppend(front, [c], (x: Country) => x.region == region);
        if region != c.region {
          assert region in groups;
        } else if region !in groups {
          FilterNone(front, (x: Country) => x.region == region);
        }
      }
    }
  }

  /** Every country is listed under its own region. */
  lemma CountryInOwnGroup(countries: seq<Country>, i: nat)
    requires i < |countries|
    ensures countries[i].region in GroupByRegion(countries)
    ensures countries[i] in GroupByRegion(countries)[countries[i].region]
  {
    GroupIsRegion(countries);
    FilterHas(countries, (x: Country) => x.region == countries[i].region, i);
  }

  /** The regions of the input, each once, in order of first occurrence. */
  function Regions(countries: seq<Country>): seq<string>
  {
    Uniq(seq(|countries|, i requires 0 <= i < |countries| => countries[i].region))
  }

  function SumSizes(groups: map<string, seq<Country>>, regions: seq<string>): nat
  {
    if regions == [] then 0
    else
      var r := regions[|regions| - 1];
      SumSizes(groups, regions[..|regions| - 1]) + (if r in groups then |groups[r]| else 0)
  }

  lemma {:induction false} SumOfRegions(countries: seq<Country>, regions: seq<string>)
    requires Distinct(regions)
    ensures SumSizes(GroupByRegion(countries), regions) == |Filter(countries, (c: Country) => c.region in regions)|
  {
    var groups := GroupByRegion(countries);
    if regions == [] {
      FilterNone(countries, (c: Country) => c.region in regions);
    } else {
      var front, r := regions[..|regions| - 1], regions[|regions| - 1];
      assert regions == front + [r];
      SumOfRegions(countries, front);
      GroupIsRegion(countries);
      FilterUnion(countries, (c: Country) => c.region in front, (c: Country) => c.region == r, (c: Country) => c.region in regions);
      var own := Filter(countries, (c: Country) => c.region == r);
      if r !in groups {
        FilterNone(countries, (c: Country) => c.region == r);
      }
      assert |multiset(Filter(countries, (c: Country) => c.region in regions))| ==
             |multiset(Filter(countries, (c: Country) => c.region in front))| + |multiset(own)|;
    }
  }

  /** Nothing is dropped or duplicated: the group sizes add up to the number of countries. */
  lemma GroupSizesSum(countries: seq<Country>)
    ensures SumSizes(GroupByRegion(countries), Regions(countries)) == |countries|
  {
    var regionSeq := seq(|countries|, i requires 0 <= i < |countries| => countries[i].region);
    UniqMembers(regionSeq);
    var regions := Regions(countries);
    SumOfRegions(countries, regions);
    forall i | 0 <= i < |countries| ensures countries[i].region in regions {
      assert regionSeq[i] == countries[i].region;
    }
    FilterAll(countries, (c: Country) => c.region in regions);
  }

  /** No countries, no groups. */
  lemma GroupEmpty()
    ensures GroupByRegion([]) == map[]
  {
  }
}
