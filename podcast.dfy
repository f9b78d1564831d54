/** `Podcast` and the decoding of an iTunes search response
    (lightcast/core.py:73-93, 112-113). The fields are copied from the JSON
    objects as they are: nothing checks that `trackId` is a number or that
    `trackName` is a string. */
module Podcasts {
  import opened Results

  /** A decoded JSON value (`json.loads`). Numbers are kept as integers. */
  datatype Json =
    | JNull
    | JBool(b: bool)
    | JNumber(n: int)
    | JString(s: string)
    | JArray(items: seq<Json>)
    | JObject(fields: map<string, Json>)

  /** A podcast as a search result describes it (lightcast/core.py:76-79). */
  datatype Podcast = Podcast(id: Json, name: Json, feedUrl: Json)

  /** `Podcast.from_dict(d)`: `d["trackId"]` and `d["trackName"]` are
      required, in that order; `d.get("feedUrl", "")` defaults to the empty
      string. Subscripting anything but an object is a TypeError. */
  function FromDict(d: Json): (r: Result<Podcast>)
    ensures r.Success? <==> d.JObject? && "trackId" in d.fields && "trackName" in d.fields
    ensures r.Success? ==> r.value.id == d.fields["trackId"] && r.value.name == d.fields["trackName"]
    ensures r.Success? ==> r.value.feedUrl == (if "feedUrl" in d.fields then d.fields["feedUrl"] else JString(""))
    ensures !d.JObject? ==> r == Failure(TypeError)
    ensures d.JObject? && "trackId" !in d.fields ==> r == Failure(KeyError("trackId"))
    ensures d.JObject? && "trackId" in d.fields && "trackName" !in d.fields ==> r == Failure(KeyError("trackName"))
  {
    match d
    case JObject(fields) =>
      if "trackId" !in fields then Failure(KeyError("trackId"))
      else if "trackName" !in fields then Failure(KeyError("trackName"))
      else Success(Podcast(fields["trackId"], fields["trackName"], if "feedUrl" in fields then fields["feedUrl"] else JString("")))
    case _ => Failure(TypeError)
  }

  /** `[Podcast.from_dict(e) for e in results]`: iterating an array visits
      its elements; iterating an object or a string visits its keys or its
      characters, which are strings, so a non-empty one fails on the first
      subscript; the other values cannot be iterated. */
  function PodcastsOf(results: Json): (r: Result<seq<Podcast>>)
    ensures results.JArray? ==> r == MapAll(FromDict, results.items)
    ensures results.JArray? ==> IsComprehension(FromDict, results.items, r)
    ensures r.Success? ==> results.JArray? || results == JObject(map[]) || results == JString("")
  {
    match results
    case JArray(items) => MapAllIsComprehension(FromDict, items); MapAll(FromDict, items)
    case JObject(fields) => if fields == map[] then Success([]) else Failure(TypeError)
    case JString(s) => if s == "" then Success([]) else Failure(TypeError)
    case _ => Failure(TypeError)
  }

  /** `search_podcasts` once the response is decoded: its `results` member,
      as podcasts. A response that is not an object is a TypeError; one
      without `results` a KeyError. */
  function SearchResults(response: Json): (r: Result<seq<Podcast>>)
    ensures r.Success? ==> response.JObject? && "results" in response.fields
    ensures !response.JObject? ==> r == Failure(TypeError)
    ensures response.JObject? && "results" !in response.fields ==> r == Failure(KeyError("results"))
    ensures response.JObject? && "results" in response.fields ==> r == PodcastsOf(response.fields["results"])
  {
    match response
    case JObject(fields) =>
      if "results" !in fields then Failure(KeyError("results"))
      else PodcastsOf(fields["results"])
    case _ => Failure(TypeError)
  }

  // ---------------------------------------------------------------------
  // Search results as the iTunes service writes them, and reading them back.

  /** The object a search result holds for a podcast. */
  function ToDict(p: Podcast): Json {
    JObject(map["trackId" := p.id, "trackName" := p.name, "feedUrl" := p.feedUrl])
  }

  /** Decoding undoes encoding. */
  lemma {:induction false} FromToDict(p: Podcast)
    ensures FromDict(ToDict(p)) == Success(p)
  {
  }

  /** Members besides the three read are ignored. */
  lemma {:induction false} ExtraMembersIgnored(fields: map<string, Json>, key: string, value: Json)
    requires key != "trackId" && key != "trackName" && key != "feedUrl"
    ensures FromDict(JObject(fields[key := value])) == FromDict(JObject(fields - {key}))
  {
    var a, b := fields[key := value], fields - {key};
    assert "trackId" in a <==> "trackId" in b;
    assert "trackName" in a <==> "trackName" in b;
    assert "feedUrl" in a <==> "feedUrl" in b;
  }

  /** A result without a feed URL gets the empty one. */
  lemma {:induction false} MissingFeedUrl(id: Json, name: Json)
    ensures FromDict(JObject(map["trackId" := id, "trackName" := name])) == Success(Podcast(id, name, JString("")))
  {
  }

  /** A response as the service writes it. */
  function Response(podcasts: seq<Podcast>): Json {
    JObject(map["resultCount" := JNumber(|podcasts|), "results" := JArray(Dicts(podcasts))])
  }

  function Dicts(podcasts: seq<Podcast>): (items: seq<Json>)
    ensures |items| == |podcasts| && forall k :: 0 <= k < |podcasts| ==> items[k] == ToDict(podcasts[k])
  {
    seq(|podcasts|, k requires 0 <= k < |podcasts| => ToDict(podcasts[k]))
  }

  /** A response reads back as the podcasts it lists, in order. */
  lemma {:induction false} ReadResponse(podcasts: seq<Podcast>)
    ensures SearchResults(Response(podcasts)) == Success(podcasts)
  {
    var items := Dicts(podcasts);
    forall k | 0 <= k < |items| ensures FromDict(items[k]).Success? && FromDict(items[k]).value == podcasts[k] {
      FromToDict(podcasts[k]);
    }
    MapAllTo(FromDict, items, podcasts);
  }

  /** One malformed entry fails the whole search with its own error; the
      entries before it do not matter. */
  lemma {:induction false} MalformedEntryFails(before: seq<Podcast>, entry: Json, after: seq<Json>)
    requires FromDict(entry).Failure?
    ensures SearchResults(JObject(map["results" := JArray(Dicts(before) + [entry] + after)]))
         == Failure(FromDict(entry).error)
  {
    var items := Dicts(before) + [entry] + after;
    forall k | 0 <= k < |before| ensures FromDict(items[k]).Success? {
      FromToDict(before[k]);
    }
    assert items[|before|] == entry;
    assert FailsFirstAt(FromDict, items, |before|);
    FirstFailureAt(FromDict, items, |before|);
  }
}
