/**
 * The event records of events.go: the internal `Event`, the published
 * `OutputEvent`, sorting by start time, sequential display codes, and the
 * conversions between the two shapes used to save and load the dataset.
 */
module Events {
  import opened Wrappers
  import opened Decimal
  import opened Timestamps

  /** An electricity event as decoded from the upstream GraphQL API (struct Event). */
  datatype Event = Event(code: string, endAt: Time, isEventParticipant: bool, name: string,
                         startAt: Time, typename: string, isTest: Option<bool>)

  /** One entry of the published dataset (struct OutputEvent); `None` is an omitted `is_test`. */
  datatype OutputEvent = OutputEvent(start: string, end: string, code: string, isTest: Option<bool>)

  /** The published file's single `data` array (struct OutputData). */
  datatype OutputData = OutputData(data: seq<OutputEvent>)

  // ---------------------------------------------------------------------
  // Ordering by start time (the comparator handed to sort.Slice)

  predicate SortedByStart(s: seq<Event>) {
    forall i, j :: 0 <= i < j < |s| ==> Rank(s[i].startAt) <= Rank(s[j].startAt)
  }

  /** Swaps two elements in place; the array is a permutation of what it was. */
  method Swap(a: array<Event>, i: int, j: int)
    requires 0 <= i < a.Length && 0 <= j < a.Length
    modifies a
    ensures a[i] == old(a[j]) && a[j] == old(a[i])
    ensures forall k :: 0 <= k < a.Length && k != i && k != j ==> a[k] == old(a[k])
    ensures multiset(a[..]) == multiset(old(a[..]))
  {
    a[i], a[j] := a[j], a[i];
  }

  /**
   * `sort.Slice(events, StartAt.Before)`: sorts in place by start time. The
   * order among equal start times is unspecified (sort.Slice is not stable),
   * so only "sorted" and "a permutation" are promised.
   */
  method SortByStart(a: array<Event>)
    modifies a
    ensures SortedByStart(a[..])
    ensures multiset(a[..]) == multiset(old(a[..]))
  {
    for i := 0 to a.Length
      invariant forall p, q :: 0 <= p < q < i ==> Rank(a[p].startAt) <= Rank(a[q].startAt)
      invariant multiset(a[..]) == multiset(old(a[..]))
    {
      InsertAt(a, i);
    }
  }

  /** One insertion step: moves `a[i]` left into the sorted prefix `a[..i]`. */
  method InsertAt(a: array<Event>, i: int)
    requires 0 <= i < a.Length
    requires forall p, q :: 0 <= p < q < i ==> Rank(a[p].startAt) <= Rank(a[q].startAt)
    modifies a
    ensures forall p, q :: 0 <= p < q <= i ==> Rank(a[p].startAt) <= Rank(a[q].startAt)
    ensures multiset(a[..]) == multiset(old(a[..]))
  {
    var j := i;
    while j > 0 && Rank(a[j - 1].startAt) > Rank(a[j].startAt)
      invariant 0 <= j <= i
      invariant forall p, q :: 0 <= p < q <= i && q != j ==> Rank(a[p].startAt) <= Rank(a[q].startAt)
      invariant multiset(a[..]) == multiset(old(a[..]))
    {
      Swap(a, j - 1, j);
      j := j - 1;
    }
  }

  // ---------------------------------------------------------------------
  // Sequential codes

  /** An event with its display code blanked: what code assignment must preserve. */
  function Uncoded(e: Event): Event {
    e.(code := "")
  }

  function UncodedAll(s: seq<Event>): (r: seq<Event>)
    ensures |r| == |s|
  {
    if s == [] then [] else [Uncoded(s[0])] + UncodedAll(s[1..])
  }

  lemma {:induction false} UncodedAllAt(s: seq<Event>, i: int)
    requires 0 <= i < |s|
    ensures UncodedAll(s)[i] == Uncoded(s[i])
  {
    if i > 0 {
      UncodedAllAt(s[1..], i - 1);
    }
  }

  lemma {:induction false} UncodedConcat(a: seq<Event>, b: seq<Event>)
    ensures UncodedAll(a + b) == UncodedAll(a) + UncodedAll(b)
  {
    if a != [] {
      assert (a + b)[1..] == a[1..] + b;
      UncodedConcat(a[1..], b);
    } else {
      assert a + b == b;
    }
  }

  lemma {:induction false} UncodedAllEqual(s: seq<Event>, t: seq<Event>)
    requires |s| == |t| && forall k :: 0 <= k < |s| ==> Uncoded(s[k]) == Uncoded(t[k])
    ensures UncodedAll(s) == UncodedAll(t)
  {
    if s != [] {
      UncodedAllEqual(s[1..], t[1..]);
    }
  }

  /** Finds `s[0]` in a permutation `t` of `s` and takes it out. */
  lemma RemoveFirst(s: seq<Event>, t: seq<Event>) returns (j: int)
    requires 0 < |s| && multiset(s) == multiset(t)
    ensures 0 <= j < |t| && t == t[..j] + ([s[0]] + t[j + 1..])
    ensures multiset(s[1..]) == multiset(t[..j] + t[j + 1..])
  {
    var x := s[0];
    assert x in multiset(t);
    j :| 0 <= j < |t| && t[j] == x;
    assert s == [x] + s[1..];
    assert t == t[..j] + ([x] + t[j + 1..]);
    assert multiset(s[1..]) == multiset(s) - multiset{x};
    assert multiset(t[..j] + t[j + 1..]) == multiset(t) - multiset{x};
  }

  /** Blanking codes commutes with permuting: equal multisets stay equal. */
  lemma {:induction false} UncodedPermutation(s: seq<Event>, t: seq<Event>)
    requires multiset(s) == multiset(t)
    ensures multiset(UncodedAll(s)) == multiset(UncodedAll(t))
    decreases |s|
  {
    if s == [] {
      assert |t| == |multiset(t)| == 0;
    } else {
      var j := RemoveFirst(s, t);
      var a, b := t[..j], t[j + 1..];
      UncodedPermutation(s[1..], a + b);
      UncodedSplit(a, s[0], b);
      assert UncodedAll(s) == [Uncoded(s[0])] + UncodedAll(s[1..]);
    }
  }

  /** Blanking the codes of `a + [x] + b` gives those of `a + b` and one more blanked `x`. */
  lemma UncodedSplit(a: seq<Event>, x: Event, b: seq<Event>)
    ensures multiset(UncodedAll(a + ([x] + b))) == multiset(UncodedAll(a + b)) + multiset{Uncoded(x)}
  {
    UncodedConcat(a, [x] + b);
    UncodedConcat(a, b);
    assert ([x] + b)[1..] == b;
    assert UncodedAll([x] + b) == [Uncoded(x)] + UncodedAll(b);
  }

  /**
   * assignSequentialCodes: sorts the events in place by start time and
   * overwrites each code with its 1-based position.
   */
  method AssignSequentialCodes(events: array<Event>)
    modifies events
    ensures SortedByStart(events[..])
    ensures forall i :: 0 <= i < events.Length ==> events[i].code == Itoa(i + 1)
    ensures multiset(UncodedAll(events[..])) == multiset(UncodedAll(old(events[..])))
  {
    SortByStart(events);
    ghost var sorted := events[..];
    WriteCodes(events);
    assert forall k :: 0 <= k < events.Length ==> events[k].startAt == sorted[k].startAt;
    assert forall k :: 0 <= k < events.Length ==> Uncoded(events[k]) == Uncoded(sorted[k]);
    UncodedAllEqual(events[..], sorted);
    UncodedPermutation(sorted, old(events[..]));
  }

  /** The numbering loop: every event keeps its fields and gets its 1-based position as code. */
  method WriteCodes(events: array<Event>)
    modifies events
    ensures forall k :: 0 <= k < events.Length ==> events[k] == old(events[k]).(code := Itoa(k + 1))
  {
    for i := 0 to events.Length
      invariant forall k :: 0 <= k < i ==> events[k] == old(events[k]).(code := Itoa(k + 1))
      invariant forall k :: i <= k < events.Length ==> events[k] == old(events[k])
    {
      events[i] := events[i].(code := Itoa(i + 1));
    }
  }

  /** The codes written by assignSequentialCodes are pairwise distinct. */
  lemma CodesDistinct(s: seq<Event>)
    requires forall i :: 0 <= i < |s| ==> s[i].code == Itoa(i + 1)
    ensures forall i, j :: 0 <= i < j < |s| ==> s[i].code != s[j].code
  {
    forall i, j | 0 <= i < j < |s| ensures s[i].code != s[j].code {
      ItoaInjective(i + 1, j + 1);
    }
  }

  // ---------------------------------------------------------------------
  // Saving and loading the published dataset

  /** One event in the published shape: both times in the fixed layout, code and is_test copied. */
  function ToOutput(e: Event): OutputEvent {
    OutputEvent(Format(e.startAt), Format(e.endAt), e.code, e.isTest)
  }

  /** convertToOutputFormat: one published entry per event, in order. */
  method ConvertToOutputFormat(events: seq<Event>) returns (out: OutputData)
    ensures |out.data| == |events|
    ensures forall i :: 0 <= i < |events| ==> out.data[i] == ToOutput(events[i])
  {
    var outputEvents: seq<OutputEvent> := [];
    for i := 0 to |events|
      invariant |outputEvents| == i
      invariant forall k :: 0 <= k < i ==> outputEvents[k] == ToOutput(events[k])
    {
      outputEvents := outputEvents + [ToOutput(events[i])];
    }
    out := OutputData(outputEvents);
  }

  /** Why loading the dataset failed; `NotFound` is the missing file. */
  datatype LoadError = NotFound | ReadFailed | DecodeFailed | BadStartTime | BadEndTime

  /** The dataset file as the loader finds it: absent, unreadable, not JSON of the expected shape, or decoded. */
  datatype StoredFile = Missing | Unreadable | Undecodable | Stored(content: OutputData)

  /** The internal event that loading builds from an entry: only code, times and is_test survive. */
  function Stripped(e: Event): Event {
    Event(e.code, e.endAt, false, "", e.startAt, "", e.isTest)
  }

  /** Decodes one entry: the start time is parsed first, then the end time. */
  function FromOutput(o: OutputEvent): (r: Result<Event, LoadError>)
    ensures r.Success? <==> Parse(o.start).Some? && Parse(o.end).Some?
    ensures r.Failure? ==> r.error == (if Parse(o.start).None? then BadStartTime else BadEndTime)
    ensures r.Success? ==> r.value == Event(o.code, Parse(o.end).value, false, "", Parse(o.start).value, "", o.isTest)
  {
    match Parse(o.start)
    case None => Failure(BadStartTime)
    case Some(start) =>
      match Parse(o.end)
      case None => Failure(BadEndTime)
      case Some(end) => Success(Event(o.code, end, false, "", start, "", o.isTest))
  }

  /** All entries decoded in order, or the error of the first entry that does not decode. */
  function DecodeAll(data: seq<OutputEvent>): (r: Result<seq<Event>, LoadError>)
    ensures r.Success? <==> forall i :: 0 <= i < |data| ==> FromOutput(data[i]).Success?
    ensures r.Success? ==> |r.value| == |data| &&
                           forall i :: 0 <= i < |data| ==> FromOutput(data[i]) == Success(r.value[i])
    ensures r.Failure? ==> r.error == BadStartTime || r.error == BadEndTime
  {
    if data == [] then Success([])
    else
      var prefix := data[..|data| - 1];
      match DecodeAll(prefix)
      case Failure(e) => Failure(e)
      case Success(events) =>
        match FromOutput(data[|data| - 1])
        case Failure(e) => Failure(e)
        case Success(event) => Success(events + [event])
  }

  /** A failed decode reports the error of entry `i`, the first entry that does not decode. */
  lemma {:induction false} DecodeAllFirstError(data: seq<OutputEvent>) returns (i: int)
    requires DecodeAll(data).Failure?
    ensures 0 <= i < |data| && FromOutput(data[i]) == Failure(DecodeAll(data).error)
    ensures forall j :: 0 <= j < i ==> FromOutput(data[j]).Success?
  {
    var prefix := data[..|data| - 1];
    assert forall j :: 0 <= j < |prefix| ==> prefix[j] == data[j];
    if DecodeAll(prefix).Failure? {
      assert DecodeAll(data) == DecodeAll(prefix);
      i := DecodeAllFirstError(prefix);
    } else {
      i := |data| - 1;
      assert DecodeAll(data).error == FromOutput(data[i]).error;
    }
  }

  /** Once a prefix fails to decode, the entries after it do not change the outcome. */
  lemma {:induction false} DecodeAllStopsAtFailure(data: seq<OutputEvent>, n: nat)
    requires n <= |data| && DecodeAll(data[..n]).Failure?
    ensures DecodeAll(data) == DecodeAll(data[..n])
    decreases |data| - n
  {
    if n < |data| {
      assert data[..n + 1][..n] == data[..n];
      DecodeAllStopsAtFailure(data, n + 1);
    } else {
      assert data[..n] == data;
    }
  }

  /**
   * The outcome of loading the dataset file: LoadExistingEvents' result as a
   * function. Only a missing file reads as `NotFound`, and a successful load
   * decodes one event per entry of a decoded file.
   */
  function Loaded(file: StoredFile): (r: Result<seq<Event>, LoadError>)
    ensures r == Failure(NotFound) <==> file.Missing?
    ensures r.Success? ==> file.Stored? && |r.value| == |file.content.data|
  {
    match file
    case Missing => Failure(NotFound)
    case Unreadable => Failure(ReadFailed)
    case Undecodable => Failure(DecodeFailed)
    case Stored(content) =>
      DecodeAll(content.data)
  }

  /**
   * loadExistingEvents: reads and decodes the dataset file; any entry whose
   * start or end does not parse fails the whole load, with no partial result.
   */
  method LoadExistingEvents(file: StoredFile) returns (r: Result<seq<Event>, LoadError>)
    ensures file.Missing? ==> r == Failure(NotFound)
    ensures file.Unreadable? ==> r == Failure(ReadFailed)
    ensures file.Undecodable? ==> r == Failure(DecodeFailed)
    ensures file.Stored? ==> r == DecodeAll(file.content.data)
    ensures r == Loaded(file)
  {
    match file
    case Missing => return Failure(NotFound);
    case Unreadable => return Failure(ReadFailed);
    case Undecodable => return Failure(DecodeFailed);
    case Stored(outputData) =>
      var data := outputData.data;
      var events: seq<Event> := [];
      for i := 0 to |data|
        invariant DecodeAll(data[..i]) == Success(events)
      {
        assert data[..i + 1][..i] == data[..i];
        var o := data[i];
        var start := Parse(o.start);
        if start.None? {
          DecodeAllStopsAtFailure(data, i + 1);
          return Failure(BadStartTime);
        }
        var end := Parse(o.end);
        if end.None? {
          DecodeAllStopsAtFailure(data, i + 1);
          return Failure(BadEndTime);
        }
        events := events + [Event(o.code, end.value, false, "", start.value, "", o.isTest)];
      }
      assert data[..|data|] == data;
      return Success(events);
  }

  /** saveEvents, format only: the file then holds the converted dataset. */
  method SaveEvents(events: seq<Event>) returns (file: StoredFile)
    ensures file.Stored? && |file.content.data| == |events|
    ensures forall i :: 0 <= i < |events| ==> file.content.data[i] == ToOutput(events[i])
  {
    var outputData := ConvertToOutputFormat(events);
    file := Stored(outputData);
  }

  /** Decoding the published form of an event gives back its code, times and is_test. */
  lemma EntryRoundTrip(e: Event)
    ensures FromOutput(ToOutput(e)) == Success(Stripped(e))
  {
    ParseFormat(e.startAt);
    ParseFormat(e.endAt);
  }

  /** Save then load: the same number of events, each with its start, end, code and is_test. */
  lemma SaveLoadRoundTrip(events: seq<Event>, data: seq<OutputEvent>)
    requires |data| == |events|
    requires forall i :: 0 <= i < |events| ==> data[i] == ToOutput(events[i])
    ensures DecodeAll(data).Success?
    ensures |DecodeAll(data).value| == |events|
    ensures forall i :: 0 <= i < |events| ==> DecodeAll(data).value[i] == Stripped(events[i])
  {
    forall i | 0 <= i < |events| ensures FromOutput(data[i]) == Success(Stripped(events[i])) {
      EntryRoundTrip(events[i]);
    }
  }
}
