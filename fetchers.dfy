/**
 * The two event sources of fetchers.go: the Octopus Energy GraphQL API
 * (the primary source) and a community JSON feed fetched with an ETag
 * conditional request and cached on disk (the secondary source). The
 * GraphQL executor and the HTTP round trip are inputs: each maps the
 * request that is sent to the outcome that comes back.
 */
module Fetchers {
  import opened Wrappers
  import opened Timestamps
  import opened Events
  import opened Cache
  import opened Configuration
  import opened Version

  const GraphQLEndpoint: string := "https://api.octopus.energy/v1/graphql/"
  const DavidKendallAPI: string := "https://oe-api.davidskendall.co.uk/free_electricity.json"
  const CampaignSlug: string := "free_electricity"
  /** The `first:` argument of the query: one page of at most 20 events, with no paging beyond it. */
  const PageSize: nat := 20

  datatype EventEdge = EventEdge(cursor: string, node: Event)
  datatype PageInfo = PageInfo(endCursor: string, hasNextPage: bool, hasPreviousPage: bool, startCursor: string)
  datatype EventConnection = EventConnection(edges: seq<EventEdge>, pageInfo: PageInfo, totalCount: int, edgeCount: int)
  datatype GraphQLResponse = GraphQLResponse(isEnrolledInCustomerFlexibilityCampaign: bool,
                                             customerFlexibilityCampaignEvents: EventConnection)

  /** The query as sent: the endpoint, the bearer key and the bound variables. */
  datatype GraphQLRequest = GraphQLRequest(endpoint: string, apiKey: string, accountNumber: string,
                                           meterPointId: string, campaignSlug: string, first: nat)

  datatype GraphQLOutcome = QueryFailed(reason: string) | Answered(response: GraphQLResponse)

  datatype FetchError =
    | QueryError(reason: string)
    | TransportError(reason: string)
    | UnexpectedStatus(status: int)
    | BodyDecodeError

  function OctopusRequest(config: Config): GraphQLRequest {
    GraphQLRequest(GraphQLEndpoint, config.apiKey, config.accountNumber, config.meterPointId, CampaignSlug, PageSize)
  }

  function EdgesOf(outcome: GraphQLOutcome): seq<EventEdge>
    requires outcome.Answered?
  {
    outcome.response.customerFlexibilityCampaignEvents.edges
  }

  /** The node of every edge, in edge order: what both primary fetch loops collect. */
  function NodesOf(edges: seq<EventEdge>): (r: seq<Event>)
    ensures |r| == |edges| && forall i :: 0 <= i < |edges| ==> r[i] == edges[i].node
  {
    if edges == [] then [] else [edges[0].node] + NodesOf(edges[1..])
  }

  /** fetchOctopusEvents: runs the query and returns the node of every edge, in edge order. */
  method FetchOctopusEvents(config: Config, run: GraphQLRequest -> GraphQLOutcome) returns (r: Result<seq<Event>, FetchError>)
    ensures run(OctopusRequest(config)).QueryFailed? ==> r == Failure(QueryError(run(OctopusRequest(config)).reason))
    ensures run(OctopusRequest(config)).Answered? ==> r == Success(NodesOf(EdgesOf(run(OctopusRequest(config)))))
  {
    var outcome := run(OctopusRequest(config));
    if outcome.QueryFailed? {
      return Failure(QueryError(outcome.reason));
    }
    var edges := outcome.response.customerFlexibilityCampaignEvents.edges;
    var events: seq<Event> := [];
    for i := 0 to |edges|
      invariant |events| == i
      invariant forall j :: 0 <= j < i ==> events[j] == edges[j].node
    {
      events := events + [edges[i].node];
    }
    assert events == NodesOf(edges);
    return Success(events);
  }

  // ---------------------------------------------------------------------
  // The secondary feed

  const StatusOK: int := 200
  const StatusNotModified: int := 304

  datatype HttpRequest = HttpRequest(verb: string, url: string, userAgent: string, accept: string, ifNoneMatch: Option<string>)

  /** A response: its status, its ETag header ("" when absent) and its body, `None` when it does not decode. */
  datatype HttpResponse = HttpResponse(status: int, etag: string, body: Option<OutputData>)

  datatype HttpOutcome = TransportFailed(reason: string) | Received(response: HttpResponse)

  /** The conditional GET that is sent, given the user agent and the cached ETag. */
  function KendallRequest(userAgent: string, cachedETag: string): (req: HttpRequest)
    ensures req.ifNoneMatch.Some? <==> cachedETag != ""
    ensures req.ifNoneMatch.Some? ==> req.ifNoneMatch.value == cachedETag
  {
    HttpRequest("GET", DavidKendallAPI, userAgent, "application/json", if cachedETag != "" then Some(cachedETag) else None)
  }

  /** The entries whose start and end both parse, decoded, in feed order; the others are dropped one by one. */
  function SkipInvalid(data: seq<OutputEvent>): (r: seq<Event>)
    ensures |r| <= |data|
  {
    if data == [] then []
    else
      var rest := SkipInvalid(data[..|data| - 1]);
      match FromOutput(data[|data| - 1])
      case Success(e) => rest + [e]
      case Failure(_) => rest
  }

  /** The positions of the entries that decode, in increasing order. */
  function ValidIndices(data: seq<OutputEvent>): (idx: seq<int>)
    ensures forall k :: 0 <= k < |idx| ==> 0 <= idx[k] < |data|
    ensures forall k, l :: 0 <= k < l < |idx| ==> idx[k] < idx[l]
    ensures forall i :: 0 <= i < |data| ==> (i in idx <==> FromOutput(data[i]).Success?)
  {
    if data == [] then []
    else
      var prefix := data[..|data| - 1];
      var rest := ValidIndices(prefix);
      assert forall i :: 0 <= i < |prefix| ==> prefix[i] == data[i];
      if FromOutput(data[|data| - 1]).Success? then rest + [|data| - 1] else rest
  }

  /** Skipping keeps exactly the entries at the valid positions, each decoded, in order. */
  lemma {:induction false} SkipInvalidSelects(data: seq<OutputEvent>)
    ensures |SkipInvalid(data)| == |ValidIndices(data)|
    ensures forall k :: 0 <= k < |SkipInvalid(data)| ==>
              FromOutput(data[ValidIndices(data)[k]]) == Success(SkipInvalid(data)[k])
  {
    if data != [] {
      var prefix := data[..|data| - 1];
      SkipInvalidSelects(prefix);
      var kept, idx := SkipInvalid(prefix), ValidIndices(prefix);
      var keptAll, idxAll := SkipInvalid(data), ValidIndices(data);
      SelectsStep(data);
      forall k | 0 <= k < |keptAll| ensures FromOutput(data[idxAll[k]]) == Success(keptAll[k]) {
        if k < |kept| {
          assert data[idx[k]] == prefix[idx[k]];
        }
      }
    }
  }

  /** One more entry extends the kept events and the valid positions together, or neither. */
  lemma SelectsStep(data: seq<OutputEvent>)
    requires data != []
    ensures var prefix, last := data[..|data| - 1], |data| - 1;
      if FromOutput(data[last]).Success? then
        SkipInvalid(data) == SkipInvalid(prefix) + [FromOutput(data[last]).value] &&
        ValidIndices(data) == ValidIndices(prefix) + [last]
      else
        SkipInvalid(data) == SkipInvalid(prefix) && ValidIndices(data) == ValidIndices(prefix)
  {
  }

  /** When every entry is valid, skipping agrees with the strict load. */
  lemma {:induction false} SkipInvalidAgreesWithStrictLoad(data: seq<OutputEvent>)
    requires DecodeAll(data).Success?
    ensures SkipInvalid(data) == DecodeAll(data).value
  {
    if data != [] {
      var prefix := data[..|data| - 1];
      assert forall i :: 0 <= i < |prefix| ==> prefix[i] == data[i];
      SkipInvalidAgreesWithStrictLoad(prefix);
    }
  }

  lemma SkipInvalidStep(data: seq<OutputEvent>, i: int)
    requires 0 <= i < |data|
    ensures SkipInvalid(data[..i + 1]) ==
            if FromOutput(data[i]).Success? then SkipInvalid(data[..i]) + [FromOutput(data[i]).value] else SkipInvalid(data[..i])
  {
    assert data[..i + 1][..i] == data[..i];
  }

  /** The round trip of fetchDavidKendallData's conditional GET, given the cached ETag. */
  function KendallOutcome(cachedETag: string, build: BuildInfo, http: HttpRequest -> HttpOutcome): HttpOutcome {
    http(KendallRequest(UserAgentPrefix + VersionOf(build), cachedETag))
  }

  /** The result fetchDavidKendallData returns, given the cache's etag and events and the HTTP round trip. */
  function SecondaryResult(cachedETag: string, cachedEvents: seq<Event>, build: BuildInfo, http: HttpRequest -> HttpOutcome)
    : (r: Result<seq<Event>, FetchError>)
    ensures var outcome := KendallOutcome(cachedETag, build, http);
      r.Success? <==> FreshBody(outcome) || (outcome.Received? && outcome.response.status == StatusNotModified)
  {
    var outcome := KendallOutcome(cachedETag, build, http);
    if outcome.TransportFailed? then Failure(TransportError(outcome.reason))
    else if outcome.response.status == StatusNotModified then Success(cachedEvents)
    else if outcome.response.status != StatusOK then Failure(UnexpectedStatus(outcome.response.status))
    else if outcome.response.body.None? then Failure(BodyDecodeError)
    else Success(SkipInvalid(outcome.response.body.value.data))
  }

  /** True when the round trip is a 200 whose body decodes: the only case that writes the cache. */
  predicate FreshBody(outcome: HttpOutcome) {
    outcome.Received? && outcome.response.status == StatusOK && outcome.response.body.Some?
  }

  /** The etag files after fetchDavidKendallData: a fresh body's non-empty ETag header replaces the cached one. */
  function ETagFilesAfter(etags: map<string, string>, cachedETag: string, build: BuildInfo, http: HttpRequest -> HttpOutcome)
    : map<string, string>
  {
    var outcome := KendallOutcome(cachedETag, build, http);
    if FreshBody(outcome) && outcome.response.etag != "" then etags[CacheDir := outcome.response.etag] else etags
  }

  /** The events files after fetchDavidKendallData: a fresh body's valid entries replace the cached ones. */
  function EventFilesAfter(blobs: map<string, Blob>, cachedETag: string, build: BuildInfo, http: HttpRequest -> HttpOutcome)
    : map<string, Blob>
  {
    var outcome := KendallOutcome(cachedETag, build, http);
    if FreshBody(outcome) then blobs[CacheDir := Encoded(SkipInvalid(outcome.response.body.value.data))] else blobs
  }

  /**
   * The cache agrees with what the fetch returns: a failed fetch writes
   * nothing, and a fetch that writes the events file returns exactly the
   * events it wrote.
   */
  lemma CacheAgreesWithResult(etags: map<string, string>, blobs: map<string, Blob>, cachedETag: string,
                              cachedEvents: seq<Event>, build: BuildInfo, http: HttpRequest -> HttpOutcome)
    ensures SecondaryResult(cachedETag, cachedEvents, build, http).Failure? ==>
              ETagFilesAfter(etags, cachedETag, build, http) == etags &&
              EventFilesAfter(blobs, cachedETag, build, http) == blobs
    ensures EventFilesAfter(blobs, cachedETag, build, http) == blobs ||
            (SecondaryResult(cachedETag, cachedEvents, build, http).Success? &&
             EventFilesAfter(blobs, cachedETag, build, http) ==
               blobs[CacheDir := Encoded(SecondaryResult(cachedETag, cachedEvents, build, http).value)])
    ensures KendallOutcome(cachedETag, build, http).Received? &&
            KendallOutcome(cachedETag, build, http).response.status == StatusNotModified ==>
              SecondaryResult(cachedETag, cachedEvents, build, http) == Success(cachedEvents) &&
              ETagFilesAfter(etags, cachedETag, build, http) == etags &&
              EventFilesAfter(blobs, cachedETag, build, http) == blobs
  {
  }

  /**
   * fetchDavidKendallData: a conditional GET with the cached ETag. A 304
   * returns the cached events; any other status but 200 is an error; a 200
   * whose body decodes caches its ETag (when it has one), skips the entries
   * that do not parse, caches the rest and returns them.
   */
  method FetchDavidKendallData(cache: FileCache, build: BuildInfo, http: HttpRequest -> HttpOutcome)
    returns (r: Result<seq<Event>, FetchError>)
    modifies cache
    ensures
      var outcome := http(KendallRequest(UserAgentPrefix + VersionOf(build), old(cache.StoredETag(CacheDir))));
      && (outcome.TransportFailed? ==> r == Failure(TransportError(outcome.reason)) && unchanged(cache))
      && (outcome.Received? && outcome.response.status == StatusNotModified ==>
            r == Success(old(cache.StoredEvents(CacheDir))) && unchanged(cache))
      && (outcome.Received? && outcome.response.status != StatusNotModified && outcome.response.status != StatusOK ==>
            r == Failure(UnexpectedStatus(outcome.response.status)) && unchanged(cache))
      && (outcome.Received? && outcome.response.status == StatusOK && outcome.response.body.None? ==>
            r == Failure(BodyDecodeError) && unchanged(cache))
      && (outcome.Received? && outcome.response.status == StatusOK && outcome.response.body.Some? ==>
            && r == Success(SkipInvalid(outcome.response.body.value.data))
            && cache.eventFiles == old(cache.eventFiles)[CacheDir := Encoded(r.value)]
            && cache.etagFiles == if outcome.response.etag != "" then old(cache.etagFiles)[CacheDir := outcome.response.etag]
                                  else old(cache.etagFiles))
    ensures r == SecondaryResult(old(cache.StoredETag(CacheDir)), old(cache.StoredEvents(CacheDir)), build, http)
    ensures cache.etagFiles == ETagFilesAfter(old(cache.etagFiles), old(cache.StoredETag(CacheDir)), build, http)
    ensures cache.eventFiles == EventFilesAfter(old(cache.eventFiles), old(cache.StoredETag(CacheDir)), build, http)
  {
    var userAgent := GetUserAgent(build);
    var etag := cache.GetCachedETag();
    var request := KendallRequest(userAgent, etag);
    var outcome := http(request);
    if outcome.TransportFailed? {
      return Failure(TransportError(outcome.reason));
    }
    var response := outcome.response;
    if response.status == StatusNotModified {
      var cached, _ := cache.GetCachedEvents();
      return Success(cached);
    }
    if response.status != StatusOK {
      return Failure(UnexpectedStatus(response.status));
    }
    if response.body.None? {
      return Failure(BodyDecodeError);
    }
    if response.etag != "" {
      cache.CacheETag(response.etag);
    }
    var data := response.body.value.data;
    var events: seq<Event> := [];
    for i := 0 to |data|
      invariant events == SkipInvalid(data[..i])
      invariant cache.eventFiles == old(cache.eventFiles)
      invariant cache.etagFiles == if response.etag != "" then old(cache.etagFiles)[CacheDir := response.etag]
                                   else old(cache.etagFiles)
    {
      SkipInvalidStep(data, i);
      var o := data[i];
      var start := Parse(o.start);
      if start.None? {
        continue;
      }
      var end := Parse(o.end);
      if end.None? {
        continue;
      }
      events := events + [Event(o.code, end.value, false, "", start.value, "", o.isTest)];
    }
    assert data[..|data|] == data;
    cache.CacheEvents(events);
    return Success(events);
  }
}
