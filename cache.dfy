/**
 * The on-disk cache of cache.go: per directory, an `etag` file holding the
 * last ETag of the secondary feed and a `david_events.json` file holding
 * the events last fetched from it. Reads never fail: a missing file reads
 * as empty, and so does an events file that does not decode.
 */
module Cache {
  import opened Wrappers
  import opened Events

  const CacheDir: string := ".cache"

  /** The contents of an events file: an encoded event list, or bytes that do not decode as one. */
  datatype Blob = Corrupt | Encoded(events: seq<Event>)

  /** The cache files of every directory, keyed by directory; a missing key is a missing file. */
  class FileCache {
    var etagFiles: map<string, string>
    var eventFiles: map<string, Blob>

    constructor (etags: map<string, string>, events: map<string, Blob>)
      ensures etagFiles == etags && eventFiles == events
    {
      etagFiles := etags;
      eventFiles := events;
    }

    /** What reading `dir`'s etag file yields: its contents, or "" when there is none. */
    function StoredETag(dir: string): string
      reads this
    {
      if dir in etagFiles then etagFiles[dir] else ""
    }

    /** What reading `dir`'s events file yields: its events, or none when it is missing or corrupt. */
    function StoredEvents(dir: string): seq<Event>
      reads this
    {
      if dir in eventFiles && eventFiles[dir].Encoded? then eventFiles[dir].events else []
    }

    /** getCachedETagFromDir. */
    method GetCachedETagFromDir(dir: string) returns (etag: string)
      ensures etag == StoredETag(dir)
    {
      if dir !in etagFiles {
        return "";
      }
      etag := etagFiles[dir];
    }

    /** cacheETagToDir: overwrites the etag file and nothing else. */
    method CacheETagToDir(dir: string, etag: string)
      modifies this
      ensures etagFiles == old(etagFiles)[dir := etag]
      ensures eventFiles == old(eventFiles)
    {
      etagFiles := etagFiles[dir := etag];
    }

    /** getCachedEventsFromDir: never reports an error; a missing or corrupt file gives no events. */
    method GetCachedEventsFromDir(dir: string) returns (events: seq<Event>, err: Option<string>)
      ensures err == None && events == StoredEvents(dir)
    {
      if dir !in eventFiles {
        return [], None;
      }
      match eventFiles[dir]
      case Corrupt => return [], None;
      case Encoded(stored) => return stored, None;
    }

    /** cacheEventsToDir: overwrites the events file and nothing else. */
    method CacheEventsToDir(dir: string, events: seq<Event>)
      modifies this
      ensures eventFiles == old(eventFiles)[dir := Encoded(events)]
      ensures etagFiles == old(etagFiles)
    {
      eventFiles := eventFiles[dir := Encoded(events)];
    }

    /** getCachedETag: the etag of the fixed cache directory. */
    method GetCachedETag() returns (etag: string)
      ensures etag == StoredETag(CacheDir)
    {
      etag := GetCachedETagFromDir(CacheDir);
    }

    /** cacheETag: stores the etag in the fixed cache directory. */
    method CacheETag(etag: string)
      modifies this
      ensures etagFiles == old(etagFiles)[CacheDir := etag]
      ensures eventFiles == old(eventFiles)
    {
      CacheETagToDir(CacheDir, etag);
    }

    /** getCachedEvents: the events of the fixed cache directory. */
    method GetCachedEvents() returns (events: seq<Event>, err: Option<string>)
      ensures err == None && events == StoredEvents(CacheDir)
    {
      events, err := GetCachedEventsFromDir(CacheDir);
    }

    /** cacheEvents: stores the events in the fixed cache directory. */
    method CacheEvents(events: seq<Event>)
      modifies this
      ensures eventFiles == old(eventFiles)[CacheDir := Encoded(events)]
      ensures etagFiles == old(etagFiles)
    {
      CacheEventsToDir(CacheDir, events);
    }

    /** An etag stored in a directory reads back unchanged, and the events file is untouched. */
    method ETagRoundTrip(dir: string, etag: string) returns (read: string)
      modifies this
      ensures read == etag
      ensures etagFiles == old(etagFiles)[dir := etag]
      ensures eventFiles == old(eventFiles)
    {
      CacheETagToDir(dir, etag);
      read := GetCachedETagFromDir(dir);
    }

    /** Events stored in a directory read back unchanged, and the etag file is untouched. */
    method EventsRoundTrip(dir: string, events: seq<Event>) returns (read: seq<Event>)
      modifies this
      ensures read == events
      ensures eventFiles == old(eventFiles)[dir := Encoded(events)]
      ensures etagFiles == old(etagFiles)
    {
      CacheEventsToDir(dir, events);
      var err;
      read, err := GetCachedEventsFromDir(dir);
    }
  }
}
