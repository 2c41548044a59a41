/** `processQuery`: the demo matcher over the sample registry. The registry is the
    sequence that `Object.entries(sampleQueries)` enumerates, each key paired with
    its markets in `Object.entries` order. */
module QueryMatch {
  import opened Optional
  import opened Strings

  /** A canned answer: its title and its markdown prose. */
  datatype Sample = Sample(title: string, content: string)

  type Markets = seq<(string, Sample)>
  type Registry = seq<(string, Markets)>

  /** `processQuery`'s three kinds of answer: a sample, `undefined` (a matching key
      whose market object is empty) and `null` (no key matches). */
  datatype QueryResult = Found(sample: Sample) | NoMarket | NoMatch

  const AllMarkets := "all"

  /** The index of the first registry key at or after `from` that occurs in `query`. */
  function FirstMatch(registry: Registry, query: string, from: nat): (r: Option<nat>)
    requires from <= |registry|
    ensures r.Some? ==> from <= r.value < |registry| && Contains(query, registry[r.value].0)
    ensures r.Some? ==> forall j :: from <= j < r.value ==> !Contains(query, registry[j].0)
    ensures r.None? ==> forall j :: from <= j < |registry| ==> !Contains(query, registry[j].0)
    decreases |registry| - from
  {
    if from == |registry| then None
    else if Contains(query, registry[from].0) then Some(from)
    else FirstMatch(registry, query, from + 1)
  }

  /** `markets[market]`: the entry registered under that key. */
  function Lookup(markets: Markets, market: string): (r: Option<Sample>)
    ensures r.Some? <==> exists j :: 0 <= j < |markets| && markets[j].0 == market
    ensures r.Some? ==> exists j :: 0 <= j < |markets| && markets[j] == (market, r.value)
  {
    if markets == [] then None
    else if markets[0].0 == market then Some(markets[0].1)
    else Lookup(markets[1..], market)
  }

  /** A sample found is one registered under a key the lower-cased query contains, and
      `undefined` comes back only for such a key whose market object is empty. */
  function ProcessQuery(registry: Registry, query: string, market: string): (r: QueryResult)
    ensures r.Found? ==> exists i, j :: 0 <= i < |registry| && Contains(ToLower(query), registry[i].0)
                                      && 0 <= j < |registry[i].1| && registry[i].1[j].1 == r.sample
    ensures r.NoMarket? ==> exists i :: 0 <= i < |registry| && Contains(ToLower(query), registry[i].0)
                                       && registry[i].1 == []
  {
    match FirstMatch(registry, ToLower(query), 0)
    case None => NoMatch
    case Some(k) =>
      var markets := registry[k].1;
      if market != AllMarkets && Lookup(markets, market).Some? then Found(Lookup(markets, market).value)
      else if markets == [] then NoMarket
      else Found(markets[0].1)
  }

  /** `null` comes back exactly when no key is a substring of the lower-cased query. */
  lemma NoMatchIff(registry: Registry, query: string, market: string)
    ensures ProcessQuery(registry, query, market) == NoMatch <==>
            forall j :: 0 <= j < |registry| ==> !Contains(ToLower(query), registry[j].0)
  {
    var found := FirstMatch(registry, ToLower(query), 0);
    if found.Some? {
      assert Contains(ToLower(query), registry[found.value].0);
    }
  }

  /** Once the first key in registry order matches, the market is resolved: a market
      other than "all" that the sample has gives its own entry; "all", or a market it
      lacks, gives the entry of the first registered market. */
  lemma MarketResolution(registry: Registry, query: string, market: string, k: nat)
    requires k < |registry| && Contains(ToLower(query), registry[k].0)
    requires forall j :: 0 <= j < k ==> !Contains(ToLower(query), registry[j].0)
    ensures var markets := registry[k].1;
            var r := ProcessQuery(registry, query, market);
            && (market != AllMarkets && Lookup(markets, market).Some? ==> r == Found(Lookup(markets, market).value))
            && (market == AllMarkets || Lookup(markets, market).None? ==>
                  r == if markets == [] then NoMarket else Found(markets[0].1))
  {
    var found := FirstMatch(registry, ToLower(query), 0);
    assert found == Some(k);
  }
}
