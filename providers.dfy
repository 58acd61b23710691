/**
 * The three population providers of `PopulationFinder` (Program.cs, lines 228-367), with the
 * HTTP exchange abstracted: a provider sends a `Request` and receives a `Reply`, and everything
 * it does with the reply is modelled. Each provider's try block ends in a `Step`; its catch
 * block turns a raised exception into "no value".
 */
module Providers {
  import opened Wrappers
  import opened IntParse
  import opened Records

  /**
   * What the HTTP exchange hands back: `Failed` for a network error, a timeout, a status
   * rejected by `EnsureSuccessStatusCode` or a body `JObject.Parse` refuses; otherwise the
   * parsed JSON body.
   */
  datatype Reply<T> = Failed | Received(body: T)

  /** A SPARQL JSON result: `results.bindings[i].population.value`; any level may be missing. */
  datatype SparqlJson = SparqlJson(results: Option<SparqlResults>)
  datatype SparqlResults = SparqlResults(bindings: Option<seq<Binding>>)
  datatype Binding = Binding(population: Option<RdfTerm>)
  datatype RdfTerm = RdfTerm(value: Option<string>)

  /** An Overpass JSON result: `elements[i].tags`, each tag value as text. */
  datatype OverpassJson = OverpassJson(elements: Option<seq<OsmElement>>)
  datatype OsmElement = OsmElement(tags: Option<map<string, string>>)

  /** How a provider's try block ends: by returning a value, or by raising. */
  datatype Step = Returns(population: Option<int>) | Throws

  /** The provider's catch block: whatever was raised becomes "no value". */
  function Catch(step: Step): Option<int>
  {
    match step
    case Returns(population) => population
    case Throws => None
  }

  /** `bindings[0].population.value`, when the body has it. */
  function FirstValue(json: SparqlJson): Option<string>
  {
    if json.results.Some? && json.results.value.bindings.Some?
       && |json.results.value.bindings.value| > 0
       && json.results.value.bindings.value[0].population.Some?
    then json.results.value.bindings.value[0].population.value.value
    else None
  }

  /**
   * Lines 259-269 (and their copy at 305-315): a missing `results` or a missing
   * `population`/`value` on the first binding is a null dereference; an absent or empty
   * `bindings` returns null; otherwise only the first binding's value is parsed.
   */
  function ReadBindings(json: SparqlJson): Step
  {
    match json.results
    case None => Throws
    case Some(results) =>
      match results.bindings
      case None => Returns(None)
      case Some(bindings) =>
        if |bindings| == 0 then Returns(None)
        else
          match bindings[0].population
          case None => Throws
          case Some(term) =>
            match term.value
            case None => Throws
            case Some(text) => Returns(ParseInt32(text))
  }

  /**
   * What either Wikidata provider returns for a reply: the parsed first binding's
   * population, and no value in every other case, including every failure.
   */
  function WikidataPopulation(reply: Reply<SparqlJson>): (r: Option<int>)
    ensures reply.Failed? ==> r.None?
    ensures r.Some? <==> reply.Received? && FirstValue(reply.body).Some?
                         && ParseInt32(FirstValue(reply.body).value).Some?
    ensures r.Some? ==> r == ParseInt32(FirstValue(reply.body).value)
  {
    match reply
    case Failed => None
    case Received(json) => Catch(ReadBindings(json))
  }

  /** Lines 350-357: an element counts when it has tags with an integer `population`. */
  function ElementPopulation(element: OsmElement): Option<int>
  {
    match element.tags
    case None => None
    case Some(tags) => if "population" in tags then ParseInt32(tags["population"]) else None
  }

  /**
   * Lines 348-360: the population of the first element, in order, that has one;
   * elements without tags, without `population` or with a non-numeric one are passed over.
   */
  function ScanElements(elements: seq<OsmElement>): Option<int>
  {
    if elements == [] then None
    else
      match ElementPopulation(elements[0])
      case Some(population) => Some(population)
      case None => ScanElements(elements[1..])
  }

  /**
   * The scan finds nothing exactly when no element has a population, and otherwise returns
   * the population of an element that has one and has none with a population before it.
   */
  lemma {:induction false} ScanFindsFirstPopulation(elements: seq<OsmElement>)
    ensures ScanElements(elements).None? <==> forall i :: 0 <= i < |elements| ==> ElementPopulation(elements[i]).None?
    ensures ScanElements(elements).Some? ==>
              exists i :: 0 <= i < |elements| && ElementPopulation(elements[i]) == ScanElements(elements)
                          && forall j :: 0 <= j < i ==> ElementPopulation(elements[j]).None?
  {
    if elements != [] {
      if ElementPopulation(elements[0]).Some? {
        assert ElementPopulation(elements[0]) == ScanElements(elements);
      } else {
        var tail := elements[1..];
        ScanFindsFirstPopulation(tail);
        assert forall i :: 1 <= i < |elements| ==> elements[i] == tail[i - 1];
        if ScanElements(tail).Some? {
          var i :| 0 <= i < |tail| && ElementPopulation(tail[i]) == ScanElements(tail)
                   && forall j :: 0 <= j < i ==> ElementPopulation(tail[j]).None?;
          assert ElementPopulation(elements[i + 1]) == ScanElements(elements);
        }
      }
    }
  }

  /** Iterating over a missing `elements` array is a null dereference. */
  function ReadElements(json: OverpassJson): Step
  {
    match json.elements
    case None => Throws
    case Some(elements) => Returns(ScanElements(elements))
  }

  function OsmPopulation(reply: Reply<OverpassJson>): (r: Option<int>)
    ensures reply.Failed? || reply.body.elements.None? ==> r.None?
    ensures reply.Received? && reply.body.elements.Some? ==> r == ScanElements(reply.body.elements.value)
  {
    match reply
    case Failed => None
    case Received(json) => Catch(ReadElements(json))
  }

  /** The three providers, in the order the cascade asks them. */
  datatype Source = Wikidata | WikidataSearch | Osm

  /** The `DataSource` tag written for a population found by each provider. */
  function Tag(source: Source): string
  {
    match source
    case Wikidata => "Wikidata"
    case WikidataSearch => "Wikidata Search"
    case Osm => "OSM"
  }

  /**
   * The parameters each query embeds: the coordinate query uses the name and the point,
   * the label search and the Overpass query only the name.
   */
  datatype Request =
    | AroundQuery(name: string, longitude: real, latitude: real)
    | LabelQuery(name: string)
    | OverpassQuery(name: string)

  function RequestFor(source: Source, place: Place): Request
  {
    match source
    case Wikidata => AroundQuery(place.name, place.longitude, place.latitude)
    case WikidataSearch => LabelQuery(place.name)
    case Osm => OverpassQuery(place.name)
  }

  /** The two remote endpoints, as the reply each gives to each request. */
  datatype Network = Network(
    wikidata: Request -> Reply<SparqlJson>,
    overpass: Request -> Reply<OverpassJson>)

  /** What asking `source` about `place` yields; a provider never raises to its caller. */
  function Ask(net: Network, source: Source, place: Place): Option<int>
  {
    var request := RequestFor(source, place);
    match source
    case Wikidata => WikidataPopulation(net.wikidata(request))
    case WikidataSearch => WikidataPopulation(net.wikidata(request))
    case Osm => OsmPopulation(net.overpass(request))
  }

  /** The body a SPARQL endpoint sends for the given population values, best first. */
  function SparqlAnswer(populations: seq<int>): SparqlJson
  {
    SparqlJson(Some(SparqlResults(Some(
      seq(|populations|, k requires 0 <= k < |populations| =>
        Binding(Some(RdfTerm(Some(FormatInt(populations[k]))))))))))
  }

  /**
   * A Wikidata provider reads back the top answer of an endpoint and nothing after it:
   * an empty answer, or a top value outside 32 bits, gives no value even when later
   * bindings would parse.
   */
  lemma WikidataReadsTopAnswer(populations: seq<int>)
    ensures WikidataPopulation(Received(SparqlAnswer(populations)))
            == if populations == [] then None
               else if InInt32(populations[0]) then Some(populations[0]) else None
  {
    if populations != [] {
      ParseFormatRoundTrip(populations[0]);
    }
  }

  /** Elements that yield no population in front of the list do not change the scan's result. */
  lemma {:induction false} ScanSkipsElementsWithoutPopulation(skipped: seq<OsmElement>, rest: seq<OsmElement>)
    requires forall i :: 0 <= i < |skipped| ==> ElementPopulation(skipped[i]).None?
    ensures ScanElements(skipped + rest) == ScanElements(rest)
  {
    if skipped != [] {
      ScanDropsHead(skipped, rest);
      ScanSkipsElementsWithoutPopulation(skipped[1..], rest);
    } else {
      assert skipped + rest == rest;
    }
  }

  lemma SplitConcat<T>(a: seq<T>, b: seq<T>)
    requires a != []
    ensures (a + b)[0] == a[0] && (a + b)[1..] == a[1..] + b
  {
  }

  lemma ScanDropsHead(skipped: seq<OsmElement>, rest: seq<OsmElement>)
    requires skipped != [] && ElementPopulation(skipped[0]).None?
    ensures ScanElements(skipped + rest) == ScanElements(skipped[1..] + rest)
  {
    SplitConcat(skipped, rest);
  }

  /** Once an element yields a population, nothing after it is looked at. */
  lemma ScanStopsAtFirstPopulation(element: OsmElement, rest: seq<OsmElement>)
    requires ElementPopulation(element).Some?
    ensures ScanElements([element] + rest) == ElementPopulation(element)
  {
  }
}
