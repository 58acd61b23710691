/**
 * `PopulationFinder.GetPopulationData` (Program.cs, lines 159-226): for every city, in list
 * order, ask the coordinate-anchored Wikidata query, then the Wikidata label search, then
 * OpenStreetMap; the first provider with a value fills in `Population` and `DataSource`, and
 * exactly one outcome counter goes up.
 */
module Cascade {
  import opened Wrappers
  import opened IntParse
  import opened Records
  import opened Providers

  /** How the cascade ends for one settlement. */
  datatype Outcome = Found(source: Source, population: int) | NotFound

  /** What each provider yields for one settlement. */
  function Answers(net: Network, place: Place): Source -> Option<int>
  {
    source => Ask(net, source, place)
  }

  /**
   * `answers` is what the network yields: for every settlement and provider, the value the
   * provider returns. The finder's methods are stated over such an oracle, so that a
   * reasoning step about the cascade need not open the JSON extraction behind `Ask`.
   */
  ghost predicate Serves(net: Network, answers: Place -> Source -> Option<int>)
  {
    forall place, source {:trigger Ask(net, source, place)} :: answers(place)(source) == Ask(net, source, place)
  }

  /** The network itself is such an oracle. */
  lemma AnswersServe(net: Network)
    ensures Serves(net, place => Answers(net, place))
  {
  }

  /** Lines 181-211: a provider is asked only after every provider before it gave no value. */
  function Lookup(answer: Source -> Option<int>): Outcome
  {
    match answer(Wikidata)
    case Some(population) => Found(Wikidata, population)
    case None =>
      match answer(WikidataSearch)
      case Some(population) => Found(WikidataSearch, population)
      case None =>
        match answer(Osm)
        case Some(population) => Found(Osm, population)
        case None => NotFound
  }

  /**
   * The providers the cascade has asked when it ends with `outcome`, in the order it asked
   * them: every provider up to the one that answered, or all three.
   */
  function Asked(outcome: Outcome): seq<Source>
  {
    match outcome
    case Found(Wikidata, _) => [Wikidata]
    case Found(WikidataSearch, _) => [Wikidata, WikidataSearch]
    case _ => [Wikidata, WikidataSearch, Osm]
  }

  /** The requests sent when the given providers are asked about `place`, in that order. */
  function QueriesFor(sources: seq<Source>, place: Place): (r: seq<Request>)
    ensures |r| == |sources|
    ensures forall k :: 0 <= k < |sources| ==> r[k] == RequestFor(sources[k], place)
  {
    if sources == [] then [] else [RequestFor(sources[0], place)] + QueriesFor(sources[1..], place)
  }

  /** The providers in the order the cascade tries them. */
  const Priority: seq<Source> := [Wikidata, WikidataSearch, Osm]

  /**
   * Reference definition, independent of the number of providers: the answer of the first
   * provider in `order` that has one.
   */
  function FirstAnswer(answer: Source -> Option<int>, order: seq<Source>): Outcome
  {
    if order == [] then NotFound
    else
      match answer(order[0])
      case Some(population) => Found(order[0], population)
      case None => FirstAnswer(answer, order[1..])
  }

  /** The providers of `order` asked until one has an answer. */
  function AskedUntilAnswer(answer: Source -> Option<int>, order: seq<Source>): seq<Source>
  {
    if order == [] then []
    else if answer(order[0]).Some? then [order[0]]
    else [order[0]] + AskedUntilAnswer(answer, order[1..])
  }

  /** The position in `order` of the first provider with a value; `|order|` when none has one. */
  function FirstAnswerIndex(answer: Source -> Option<int>, order: seq<Source>): (i: nat)
    ensures i <= |order|
    ensures forall j :: 0 <= j < i ==> answer(order[j]).None?
    ensures i < |order| ==> answer(order[i]).Some?
  {
    if order == [] || answer(order[0]).Some? then 0
    else
      var i := 1 + FirstAnswerIndex(answer, order[1..]);
      assert forall j :: 1 <= j < i ==> order[j] == order[1..][j - 1];
      i
  }

  /**
   * The first answer wins: the outcome is the value of the first provider of `order` that
   * has one, tagged with that provider, and the providers asked are exactly those up to and
   * including it; when none has a value, nothing is found and every provider was asked.
   */
  lemma {:induction false} FirstAnswerWins(answer: Source -> Option<int>, order: seq<Source>)
    ensures var i := FirstAnswerIndex(answer, order);
            && FirstAnswer(answer, order) == (if i < |order| then Found(order[i], answer(order[i]).value) else NotFound)
            && AskedUntilAnswer(answer, order) == order[..if i < |order| then i + 1 else i]
  {
    if order != [] && answer(order[0]).None? {
      var tail := order[1..];
      FirstAnswerWins(answer, tail);
      var i := FirstAnswerIndex(answer, tail);
      assert i < |tail| ==> order[i + 1] == tail[i];
      assert order[..i + 1] == [order[0]] + tail[..i];
      assert i < |tail| ==> order[..i + 2] == [order[0]] + tail[..i + 1];
    }
  }

  /** The nested ifs of lines 181-211 are the first-answer rule over `Priority`. */
  lemma CascadeFollowsPriority(answer: Source -> Option<int>)
    ensures Lookup(answer) == FirstAnswer(answer, Priority)
    ensures Asked(Lookup(answer)) == AskedUntilAnswer(answer, Priority)
  {
    assert Priority[1..] == [WikidataSearch, Osm];
    assert Priority[1..][1..] == [Osm];
    assert Priority[1..][1..][1..] == [];
  }

  /**
   * Lines 184-185, 194-195, 204-205 and 210: a found value is stored together with its
   * provider's tag; when nothing is found both fields keep what they held.
   */
  function Record(outcome: Outcome, before: Entry): Entry
  {
    match outcome
    case Found(source, population) => Entry(Some(population), Some(Tag(source)))
    case NotFound => before
  }

  /** `Population` and `DataSource` are set together, and the tag names the provider that answered. */
  lemma RecordKeepsFieldsTogether(outcome: Outcome, before: Entry)
    requires before.Consistent()
    ensures Record(outcome, before).Consistent()
    ensures outcome.Found? ==> Record(outcome, before).population == Some(outcome.population)
    ensures forall s :: Record(outcome, before).dataSource == Some(Tag(s)) && before.dataSource.None?
              ==> outcome == Found(s, outcome.population)
  {
  }

  /** Lines 186, 196, 206 and 210: one outcome bumps exactly one counter. */
  function Bump(counts: Counts, outcome: Outcome): Counts
  {
    match outcome
    case Found(Wikidata, _) => counts.(wikidata := counts.wikidata + 1)
    case Found(WikidataSearch, _) => counts.(search := counts.search + 1)
    case Found(Osm, _) => counts.(osm := counts.osm + 1)
    case NotFound => counts.(notFound := counts.notFound + 1)
  }

  /** How the cascade ends for each settlement of `places`, in list order. */
  function Outcomes(answers: Place -> Source -> Option<int>, places: seq<Place>): (r: seq<Outcome>)
    ensures |r| == |places|
  {
    seq(|places|, k requires 0 <= k < |places| => Lookup(answers(places[k])))
  }

  /**
   * What the first `n` cities add to the counters: one bump per city whose loop body
   * completes, with that city's outcome; a city whose body is aborted (`aborts[k]`) adds
   * nothing.
   */
  function Tally(start: Counts, outcomes: seq<Outcome>, aborts: seq<bool>, n: nat): Counts
    requires n <= |outcomes| && n <= |aborts|
  {
    if n == 0 then start
    else
      var before := Tally(start, outcomes, aborts, n - 1);
      if aborts[n - 1] then before else Bump(before, outcomes[n - 1])
  }

  /**
   * Every city is counted once or aborted: the four buckets together go up by exactly the
   * number of cities whose body completed, so by `TotalCities` when none is aborted.
   */
  lemma {:induction false} TallyCountsEveryCompletedCity(start: Counts, outcomes: seq<Outcome>, aborts: seq<bool>, n: nat)
    requires n <= |outcomes| && n <= |aborts|
    requires start.NonNegative()
    ensures Tally(start, outcomes, aborts, n).NonNegative()
    ensures Tally(start, outcomes, aborts, n).Total() + multiset(aborts[..n])[true] == start.Total() + n
  {
    if n > 0 {
      TallyCountsEveryCompletedCity(start, outcomes, aborts, n - 1);
      assert aborts[..n] == aborts[..n - 1] + [aborts[n - 1]];
    }
  }

  /** A city's fields after its pass: untouched when the pass aborts, else the outcome's. */
  function Settle(aborted: bool, outcome: Outcome, entry: Entry): Entry
  {
    if aborted then entry else Record(outcome, entry)
  }

  /** The cities' fields once the loop has passed the first `n` cities. */
  function Filled(initial: seq<Entry>, outcomes: seq<Outcome>, aborts: seq<bool>, n: nat): (r: seq<Entry>)
    requires n <= |initial| <= |outcomes| && |initial| <= |aborts|
    ensures |r| == |initial|
  {
    if n == 0 then initial
    else Filled(initial, outcomes, aborts, n - 1)[n - 1 := Settle(aborts[n - 1], outcomes[n - 1], initial[n - 1])]
  }

  lemma {:induction false} FilledAt(initial: seq<Entry>, outcomes: seq<Outcome>, aborts: seq<bool>, n: nat, k: nat)
    requires n <= |initial| <= |outcomes| && |initial| <= |aborts| && k < |initial|
    ensures Filled(initial, outcomes, aborts, n)[k] == if k < n then Settle(aborts[k], outcomes[k], initial[k]) else initial[k]
  {
    if n > 0 {
      FilledAt(initial, outcomes, aborts, n - 1, k);
    }
  }

  /**
   * The log `start` followed by the requests the first `n` cities send, city after city;
   * a city whose body aborts sends none.
   */
  function RequestsSent(start: seq<Request>, places: seq<Place>, outcomes: seq<Outcome>, aborts: seq<bool>, n: nat): seq<Request>
    requires n <= |places| && n <= |outcomes| && n <= |aborts|
  {
    if n == 0 then start
    else
      var before := RequestsSent(start, places, outcomes, aborts, n - 1);
      if aborts[n - 1] then before else before + QueriesFor(Asked(outcomes[n - 1]), places[n - 1])
  }

  /** The number of completed bodies grows by one exactly when the next body completes. */
  lemma CompletedStep(aborts: seq<bool>, n: nat)
    requires 0 < n <= |aborts|
    ensures multiset(aborts[..n])[false] == multiset(aborts[..n - 1])[false] + if aborts[n - 1] then 0 else 1
  {
    assert aborts[..n] == aborts[..n - 1] + [aborts[n - 1]];
  }

  /**
   * Requests are only ever appended to the log, and every city whose body completes sends
   * at least one and at most three of them (one per provider).
   */
  lemma {:induction false} RequestsSentPerCity(start: seq<Request>, places: seq<Place>, outcomes: seq<Outcome>, aborts: seq<bool>, n: nat)
    requires n <= |places| && n <= |outcomes| && n <= |aborts|
    ensures var sent := RequestsSent(start, places, outcomes, aborts, n);
            var completed := multiset(aborts[..n])[false];
            && |start| <= |sent| && sent[..|start|] == start
            && |start| + completed <= |sent| <= |start| + 3 * completed
  {
    if n > 0 {
      RequestsSentPerCity(start, places, outcomes, aborts, n - 1);
      CompletedStep(aborts, n);
      var before := RequestsSent(start, places, outcomes, aborts, n - 1);
      if !aborts[n - 1] {
        var asked := Asked(outcomes[n - 1]);
        var added := QueriesFor(asked, places[n - 1]);
        assert 1 <= |added| == |asked| <= 3;
        assert (before + added)[..|start|] == before[..|start|];
      }
    }
  }

  class PopulationFinder
  {
    const statistics: SearchStatistics
    /** Every request sent to a provider endpoint, in order. */
    ghost var requests: seq<Request>

    constructor ()
      ensures fresh(statistics)
      ensures statistics.totalCities == 0 && statistics.Buckets() == Counts(0, 0, 0, 0)
      ensures requests == []
    {
      statistics := new SearchStatistics();
      requests := [];
    }

    /** Lines 228-276: the Wikidata query around the city's point. */
    method GetPopulationFromWikidata(city: City, net: Network, ghost answers: Place -> Source -> Option<int>)
      returns (population: Option<int>)
      requires Serves(net, answers)
      modifies this`requests
      ensures requests == old(requests) + [RequestFor(Wikidata, city.AsPlace())]
      ensures population == answers(city.AsPlace())(Wikidata)
    {
      var request := AroundQuery(city.name, city.longitude, city.latitude);
      requests := requests + [request];
      population := WikidataPopulation(net.wikidata(request));
      assert population == Ask(net, Wikidata, city.AsPlace());
    }

    /** Lines 278-322: the Wikidata search by label. */
    method GetPopulationFromWiderdataSearch(city: City, net: Network, ghost answers: Place -> Source -> Option<int>)
      returns (population: Option<int>)
      requires Serves(net, answers)
      modifies this`requests
      ensures requests == old(requests) + [RequestFor(WikidataSearch, city.AsPlace())]
      ensures population == answers(city.AsPlace())(WikidataSearch)
    {
      var request := LabelQuery(city.name);
      requests := requests + [request];
      population := WikidataPopulation(net.wikidata(request));
      assert population == Ask(net, WikidataSearch, city.AsPlace());
    }

    /** Lines 324-367: the Overpass query by name. */
    method GetPopulationFromOSM(city: City, net: Network, ghost answers: Place -> Source -> Option<int>)
      returns (population: Option<int>)
      requires Serves(net, answers)
      modifies this`requests
      ensures requests == old(requests) + [RequestFor(Osm, city.AsPlace())]
      ensures population == answers(city.AsPlace())(Osm)
    {
      var request := OverpassQuery(city.name);
      requests := requests + [request];
      population := OsmPopulation(net.overpass(request));
      assert population == Ask(net, Osm, city.AsPlace());
    }

    /**
     * Lines 178-213, the loop body for one city: ask the providers in priority order,
     * store the first value with its tag and bump the matching counter. `outcome` is how
     * the cascade ended for this city.
     */
    method ResolveCity(city: City, net: Network, ghost answers: Place -> Source -> Option<int>)
      returns (ghost outcome: Outcome)
      requires Serves(net, answers)
      modifies this`requests, statistics, city
      ensures outcome == Lookup(answers(city.AsPlace()))
      ensures city.Fields() == Record(outcome, old(city.Fields()))
      ensures statistics.totalCities == old(statistics.totalCities)
      ensures statistics.Buckets() == Bump(old(statistics.Buckets()), outcome)
      ensures requests == old(requests) + QueriesFor(Asked(outcome), city.AsPlace())
    {
      ghost var place := city.AsPlace();
      ghost var log := requests;
      var population := GetPopulationFromWikidata(city, net, answers);
      if population.Some? {
        outcome := Found(Wikidata, population.value);
        RequestsInOrder(outcome, place);
        city.population := population;
        city.dataSource := Some("Wikidata");
        statistics.foundInWikidata := statistics.foundInWikidata + 1;
      } else {
        population := GetPopulationFromWiderdataSearch(city, net, answers);
        assert requests == log + [RequestFor(Wikidata, place), RequestFor(WikidataSearch, place)];
        if population.Some? {
          outcome := Found(WikidataSearch, population.value);
          RequestsInOrder(outcome, place);
          city.population := population;
          city.dataSource := Some("Wikidata Search");
          statistics.foundInWiderdataSearch := statistics.foundInWiderdataSearch + 1;
        } else {
          population := GetPopulationFromOSM(city, net, answers);
          assert requests == log + [RequestFor(Wikidata, place), RequestFor(WikidataSearch, place), RequestFor(Osm, place)];
          if population.Some? {
            outcome := Found(Osm, population.value);
            city.population := population;
            city.dataSource := Some("OSM");
            statistics.foundInOsm := statistics.foundInOsm + 1;
          } else {
            outcome := NotFound;
            statistics.notFound := statistics.notFound + 1;
          }
          RequestsInOrder(outcome, place);
        }
      }
    }

    /**
     * One pass of the loop at lines 176-223: the body for the i-th city runs to the end, or
     * (`aborted`) raises before anything is recorded and the catch moves on.
     */
    method Visit(cities: seq<City>, i: nat, net: Network, aborted: bool, ghost answers: Place -> Source -> Option<int>)
      returns (ghost outcome: Outcome)
      requires Serves(net, answers)
      requires i < |cities|
      requires Distinct(cities)
      modifies this`requests, statistics, cities[i]
      ensures outcome == Lookup(answers(cities[i].AsPlace()))
      ensures Entries(cities) == old(Entries(cities))[i := Settle(aborted, outcome, old(cities[i].Fields()))]
      ensures statistics.totalCities == old(statistics.totalCities)
      ensures statistics.Buckets() == if aborted then old(statistics.Buckets()) else Bump(old(statistics.Buckets()), outcome)
      ensures requests == if aborted then old(requests) else old(requests) + QueriesFor(Asked(outcome), cities[i].AsPlace())
    {
      if aborted {
        outcome := Lookup(answers(cities[i].AsPlace()));
      } else {
        outcome := ResolveCity(cities[i], net, answers);
      }
      forall k | 0 <= k < |cities| && k != i
        ensures cities[k].Fields() == old(cities[k].Fields())
      {
        if k < i { DistinctApart(cities, k, i); } else { DistinctApart(cities, i, k); }
      }
      assert Entries(cities) == old(Entries(cities))[i := Settle(aborted, outcome, old(cities[i].Fields()))];
    }

    /**
     * Lines 170-226. `aborts[k]` says that the loop body for the k-th city raised before its
     * outcome was recorded; the catch at lines 218-222 then moves on to the next city. No
     * statement of the model raises, so this stands for a failure of the runtime.
     * `outcomes[k]` is how the cascade ends for the k-th city when its body runs.
     * `TotalCities` is set once from the list length; the four buckets are not reset.
     */
    method GetPopulationData(cities: seq<City>, net: Network, aborts: seq<bool>, ghost answers: Place -> Source -> Option<int>)
      returns (ghost outcomes: seq<Outcome>)
      requires Serves(net, answers)
      requires |aborts| == |cities|
      requires Distinct(cities)
      requires statistics.Buckets().NonNegative()
      requires statistics.Buckets().Total() + |cities| <= MaxInt32
      modifies this`requests, statistics, cities
      ensures outcomes == Outcomes(answers, Places(cities))
      ensures forall k :: 0 <= k < |cities| ==>
                cities[k].Fields() == if aborts[k] then old(cities[k].Fields()) else Record(outcomes[k], old(cities[k].Fields()))
      ensures statistics.totalCities == |cities|
      ensures statistics.Buckets() == Tally(old(statistics.Buckets()), outcomes, aborts, |cities|)
      ensures statistics.Buckets().NonNegative() && statistics.Buckets().Total() <= MaxInt32
      ensures statistics.Buckets().Total() + multiset(aborts)[true] == old(statistics.Buckets().Total()) + |cities|
      ensures requests == RequestsSent(old(requests), Places(cities), outcomes, aborts, |cities|)
    {
      ghost var places := Places(cities);
      ghost var initial := Entries(cities);
      outcomes := Outcomes(answers, places);
      statistics.totalCities := |cities|;
      for i := 0 to |cities|
        invariant Entries(cities) == Filled(initial, outcomes, aborts, i)
        invariant statistics.totalCities == |cities|
        invariant statistics.Buckets() == Tally(old(statistics.Buckets()), outcomes, aborts, i)
        invariant requests == RequestsSent(old(requests), places, outcomes, aborts, i)
      {
        ghost var outcome := Visit(cities, i, net, aborts[i], answers);
        FilledAt(initial, outcomes, aborts, i, i);
      }
      TallyCountsEveryCompletedCity(old(statistics.Buckets()), outcomes, aborts, |cities|);
      forall k | 0 <= k < |cities|
        ensures cities[k].Fields() == if aborts[k] then old(cities[k].Fields()) else Record(outcomes[k], old(cities[k].Fields()))
      {
        FilledAt(initial, outcomes, aborts, |cities|, k);
      }
      assert aborts[..|cities|] == aborts;
    }
  }

  /** The requests for the providers asked, one per provider, in the order asked. */
  lemma RequestsInOrder(outcome: Outcome, place: Place)
    ensures outcome.Found? && outcome.source == Wikidata ==>
              QueriesFor(Asked(outcome), place) == [RequestFor(Wikidata, place)]
    ensures outcome.Found? && outcome.source == WikidataSearch ==>
              QueriesFor(Asked(outcome), place) == [RequestFor(Wikidata, place), RequestFor(WikidataSearch, place)]
    ensures outcome.NotFound? || outcome.source == Osm ==>
              QueriesFor(Asked(outcome), place) == [RequestFor(Wikidata, place), RequestFor(WikidataSearch, place), RequestFor(Osm, place)]
  {
  }
}
