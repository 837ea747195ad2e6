/**
 * One run of fetchAndUpdateEvents in main.go: fetch the primary events,
 * refuse to go on with none, load the published dataset, fetch the
 * secondary feed (tolerating its failure), merge existing, then secondary,
 * then primary events, number them and write the dataset back.
 */
module Pipeline {
  import opened Wrappers
  import opened Decimal
  import opened Events
  import opened Merger
  import opened Cache
  import opened Configuration
  import opened Version
  import opened Fetchers

  datatype RunError = GraphQLFailed(reason: string) | NoEventsReceived | LoadFailed(error: LoadError) | SaveFailed

  /** The existing events a run merges into: the loaded ones, or none when the file does not exist. */
  function ExistingEvents(file: StoredFile): seq<Event> {
    if Loaded(file).Success? then Loaded(file).value else []
  }

  /** The secondary events a run merges: the feed's, or none when fetching it failed. */
  function ExternalEvents(r: Result<seq<Event>, FetchError>): seq<Event> {
    if r.Success? then r.value else []
  }

  /**
   * fetchAndUpdateEvents. `file` is the dataset at the configured output
   * path and `written` what it holds afterwards; `writable` says whether
   * writing it succeeds, and `afterFailedWrite` is what a failed write
   * leaves behind (os.WriteFile truncates the file before writing, so it
   * may be empty or partial). On success the saved events are returned.
   */
  method FetchAndUpdateEvents(config: Config, build: BuildInfo, run: GraphQLRequest -> GraphQLOutcome,
                              http: HttpRequest -> HttpOutcome, cache: FileCache, file: StoredFile, writable: bool,
                              afterFailedWrite: StoredFile)
    returns (r: Result<seq<Event>, RunError>, written: StoredFile)
    modifies cache
    ensures r.Failure? && r != Failure(SaveFailed) ==> written == file
    ensures r == Failure(SaveFailed) ==> written == afterFailedWrite
    ensures
      var query := run(OctopusRequest(config));
      && (query.QueryFailed? ==> r == Failure(GraphQLFailed(query.reason)) && unchanged(cache))
      && (query.Answered? && EdgesOf(query) == [] ==> r == Failure(NoEventsReceived) && unchanged(cache))
      && (query.Answered? && EdgesOf(query) != [] && Loaded(file).Failure? && Loaded(file).error != NotFound ==>
            r == Failure(LoadFailed(Loaded(file).error)) && unchanged(cache))
      && (query.Answered? && EdgesOf(query) != [] && (Loaded(file).Success? || Loaded(file).error == NotFound) ==>
            && (r.Success? <==> writable)
            && (r.Failure? ==> r == Failure(SaveFailed))
            && cache.etagFiles == ETagFilesAfter(old(cache.etagFiles), old(cache.StoredETag(CacheDir)), build, http)
            && cache.eventFiles == EventFilesAfter(old(cache.eventFiles), old(cache.StoredETag(CacheDir)), build, http))
    ensures r.Success? ==>
      var primary := NodesOf(EdgesOf(run(OctopusRequest(config))));
      var external := ExternalEvents(SecondaryResult(old(cache.StoredETag(CacheDir)), old(cache.StoredEvents(CacheDir)), build, http));
      var all := ExistingEvents(file) + external + primary;
      var saved := r.value;
      && SortedByStart(saved)
      && (forall i :: 0 <= i < |saved| ==> saved[i].code == Itoa(i + 1))
      && DistinctKeys(saved)
      && KeySet(saved) == KeySet(all)
      && (forall i :: 0 <= i < |saved| ==> KeptCopyOf(saved[i], all))
      && (forall i :: 0 <= i < |saved| && KeyOf(saved[i]) in KeySet(primary) ==> KeptCopyOf(saved[i], primary))
      && |saved| >= |KeySet(ExistingEvents(file))|
      && written.Stored? && |written.content.data| == |saved|
      && (forall i :: 0 <= i < |saved| ==> written.content.data[i] == ToOutput(saved[i]))
  {
    var fetched := FetchOctopusEvents(config, run);
    if fetched.Failure? {
      return Failure(GraphQLFailed(fetched.error.reason)), file;
    }
    var newEvents := fetched.value;
    assert newEvents == NodesOf(EdgesOf(run(OctopusRequest(config))));
    if |newEvents| == 0 {
      return Failure(NoEventsReceived), file;
    }

    var loaded := LoadExistingEvents(file);
    if loaded.Failure? && loaded.error != NotFound {
      return Failure(LoadFailed(loaded.error)), file;
    }
    var existingEvents := if loaded.Success? then loaded.value else [];

    var secondary := FetchDavidKendallData(cache, build, http);
    var externalEvents := if secondary.Success? then secondary.value else [];

    var saved := MergeAndNumber(existingEvents, externalEvents, newEvents);
    if !writable {
      return Failure(SaveFailed), afterFailedWrite;
    }
    written := SaveEvents(saved);
    r := Success(saved);
  }

  /** `e` is, apart from its code, the copy of its key that a merge of `s` keeps. */
  predicate KeptCopyOf(e: Event, s: seq<Event>) {
    LastWithKey(s, KeyOf(e)).Some? && Uncoded(e) == Uncoded(LastWithKey(s, KeyOf(e)).value)
  }

  /**
   * The merge and numbering steps of a run: existing with secondary, the
   * result with primary, then sequential codes in start order.
   */
  method MergeAndNumber(existing: seq<Event>, external: seq<Event>, primary: seq<Event>) returns (saved: seq<Event>)
    ensures SortedByStart(saved)
    ensures forall i :: 0 <= i < |saved| ==> saved[i].code == Itoa(i + 1)
    ensures DistinctKeys(saved)
    ensures KeySet(saved) == KeySet(existing + external + primary)
    ensures forall i :: 0 <= i < |saved| ==> KeptCopyOf(saved[i], existing + external + primary)
    ensures forall i :: 0 <= i < |saved| && KeyOf(saved[i]) in KeySet(primary) ==> KeptCopyOf(saved[i], primary)
    ensures |saved| >= |KeySet(existing)|
  {
    var allExistingEvents := MergeEvents(existing, external);
    var mergedEvents := MergeEvents(allExistingEvents, primary);
    ghost var all := existing + external + primary;
    MergeChain(existing, external, primary, allExistingEvents, mergedEvents);

    var a := new Event[|mergedEvents|](i requires 0 <= i < |mergedEvents| => mergedEvents[i]);
    assert a[..] == mergedEvents;
    AssignSequentialCodes(a);
    saved := a[..];
    RecodedDedup(mergedEvents, saved, all);
    PrimaryWins(existing + external, primary, saved, all);
    CoversExistingKeys(existing, external, primary, saved);
  }

  /** A list with one event per key of `existing + external + primary` is at least as long as `existing` has keys. */
  lemma CoversExistingKeys(existing: seq<Event>, external: seq<Event>, primary: seq<Event>, saved: seq<Event>)
    requires DistinctKeys(saved) && KeySet(saved) == KeySet(existing + external + primary)
    ensures |saved| >= |KeySet(existing)|
  {
    KeySetConcat(existing, external);
    KeySetConcat(existing + external, primary);
    DistinctKeysCount(saved);
    SubsetSize(KeySet(existing), KeySet(saved));
  }

  lemma KeyOfUncoded(e: Event)
    ensures KeyOf(Uncoded(e)) == KeyOf(e)
  {
  }

  lemma {:induction false} KeySetUncoded(s: seq<Event>)
    ensures KeySet(UncodedAll(s)) == KeySet(s)
  {
    forall k | k in KeySet(s) ensures k in KeySet(UncodedAll(s)) {
      var i :| 0 <= i < |s| && KeyOf(s[i]) == k;
      UncodedAllAt(s, i);
    }
    forall k | k in KeySet(UncodedAll(s)) ensures k in KeySet(s) {
      var i :| 0 <= i < |s| && KeyOf(UncodedAll(s)[i]) == k;
      UncodedAllAt(s, i);
    }
  }

  /**
   * Renumbering a merge result keeps what the merge promised, up to codes:
   * one event per key, every key, and each event the last of its key.
   */
  lemma RecodedDedup(m: seq<Event>, saved: seq<Event>, all: seq<Event>)
    requires IsDedupOf(m, all)
    requires multiset(UncodedAll(saved)) == multiset(UncodedAll(m))
    ensures |saved| == |m| && DistinctKeys(saved) && KeySet(saved) == KeySet(all)
    ensures forall i :: 0 <= i < |saved| ==> KeptCopyOf(saved[i], all)
  {
    var um, us := UncodedAll(m), UncodedAll(saved);
    KeySetUncoded(m);
    KeySetUncoded(saved);
    KeySetOfPermutation(us, um);
    DistinctKeysCount(m);
    DistinctKeysCount(saved);
    forall i | 0 <= i < |saved| ensures KeptCopyOf(saved[i], all) {
      UncodedAllAt(saved, i);
      assert us[i] in multiset(um);
      var j :| 0 <= j < |um| && um[j] == us[i];
      UncodedAllAt(m, j);
      KeyOfUncoded(saved[i]);
      KeyOfUncoded(m[j]);
    }
  }

  /** In a merge of `before + primary`, a key the primary events have takes its copy from them. */
  lemma PrimaryWins(before: seq<Event>, primary: seq<Event>, saved: seq<Event>, all: seq<Event>)
    requires all == before + primary
    requires forall i :: 0 <= i < |saved| ==> KeptCopyOf(saved[i], all)
    ensures forall i :: 0 <= i < |saved| && KeyOf(saved[i]) in KeySet(primary) ==> KeptCopyOf(saved[i], primary)
  {
    forall i | 0 <= i < |saved| && KeyOf(saved[i]) in KeySet(primary) ensures KeptCopyOf(saved[i], primary) {
      LastWithKeyConcat(before, primary, KeyOf(saved[i]));
      LastWithKeyFound(primary, KeyOf(saved[i]));
    }
  }

  /**
   * What one run saves, the next run loads back in full, with one event per
   * key; that run then saves at least as many events. The dataset never
   * shrinks across successful runs.
   */
  lemma DatasetNeverShrinks(saved: seq<Event>, written: StoredFile)
    requires DistinctKeys(saved)
    requires written.Stored? && |written.content.data| == |saved|
    requires forall i :: 0 <= i < |saved| ==> written.content.data[i] == ToOutput(saved[i])
    ensures Loaded(written).Success? && |Loaded(written).value| == |saved|
    ensures forall i :: 0 <= i < |saved| ==> Loaded(written).value[i] == Stripped(saved[i])
    ensures |KeySet(ExistingEvents(written))| == |saved|
  {
    SaveLoadRoundTrip(saved, written.content.data);
    var reloaded := Loaded(written).value;
    assert forall i :: 0 <= i < |saved| ==> KeyOf(reloaded[i]) == KeyOf(saved[i]);
    assert DistinctKeys(reloaded);
    DistinctKeysCount(reloaded);
  }
}
