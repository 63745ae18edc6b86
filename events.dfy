/** The events a discovery run pushes onto a session's queue, the
    server-sent-event framing, and the two halves of the pipeline as
    specification functions: what the producer pushes (`ProducedEvents`)
    and what the stream relay emits for a queue and a sequence of
    wait outcomes (`RelayFrom`). */
module Events {
  import opened Wrappers
  import opened Text
  import opened RelatedSongs

  // ---------------------------------------------------------------------
  // Events
  // ---------------------------------------------------------------------

  /** The dictionary carried by an event: a song record (with an `index`
      key exactly when an index was given) or a `{"message": ...}`. */
  datatype Payload =
    | SongPayload(song: SongInfo, index: Option<int>)
    | MessagePayload(message: string)

  /** A queue entry `(event_type, data)`. */
  datatype Event = Event(eventType: string, data: Payload)

  const RelatedSongType := "related_song"
  const CompleteType := "complete"
  const ErrorType := "error"
  const NoRelatedMessage := "No related songs found"
  const CompleteMessage := "Related songs processing complete"

  /** The number of related tracks the producer looks at. */
  const MaxRelated := 8

  function ErrorEvent(message: string): Event {
    Event(ErrorType, MessagePayload(message))
  }

  const CompleteEvent := Event(CompleteType, MessagePayload(CompleteMessage))

  /** `event_type in ["complete", "error"]`. */
  predicate IsTerminal(e: Event) {
    e.eventType == CompleteType || e.eventType == ErrorType
  }

  // ---------------------------------------------------------------------
  // Server-sent-event frames
  // ---------------------------------------------------------------------

  /** `format_sse`: a `data:` line and a blank line, preceded by an
      `event:` line when an event name is given. */
  function FormatSse(data: string, event: Option<string>): (msg: string)
    ensures |msg| >= 8 && msg[|msg| - 2..] == "\n\n"
    ensures StartsWith(msg, "event: ") <==> event.Some?
  {
    var msg := "data: " + data + "\n\n";
    if event.Some? then "event: " + event.value + "\n" + msg
    else assert msg[0] == 'd'; msg
  }

  /** Reads a frame back: the text after `data: ` up to the final blank
      line, and the name on the `event:` line if there is one. */
  function ParseSse(frame: string): Option<(string, Option<string>)> {
    if StartsWith(frame, "event: ") then
      match IndexOf(frame, '\n', 7)
      case None => None
      case Some(j) =>
        var rest := frame[j + 1..];
        if |rest| >= 8 && StartsWith(rest, "data: ") && rest[|rest| - 2..] == "\n\n"
        then Some((rest[6..|rest| - 2], Some(frame[7..j])))
        else None
    else if |frame| >= 8 && StartsWith(frame, "data: ") && frame[|frame| - 2..] == "\n\n"
    then Some((frame[6..|frame| - 2], None))
    else None
  }

  /** Every frame reads back as the data and event name it was built from,
      as long as the event name is a single line. */
  lemma ParseFormatSse(data: string, event: Option<string>)
    requires event.Some? ==> '\n' !in event.value
    ensures ParseSse(FormatSse(data, event)) == Some((data, event))
  {
    var msg := "data: " + data + "\n\n";
    assert msg[..6] == "data: " && msg[6..|msg| - 2] == data;
    if event.Some? {
      var e := event.value;
      var frame := "event: " + e + "\n" + msg;
      assert frame[..7] == "event: ";
      assert frame[7 + |e|] == '\n';
      forall j | 7 <= j < 7 + |e| ensures frame[j] != '\n' {
        assert frame[j] == e[j - 7];
      }
      assert frame[7..7 + |e|] == e;
      assert frame[7 + |e| + 1..] == msg;
    }
  }

  /** The keep-alive comment frame. */
  const KeepAliveText := ": keepalive\n\n"

  /** A keep-alive never reads as an event frame. */
  lemma KeepAliveIsNoEvent()
    ensures ParseSse(KeepAliveText) == None
  {
    assert KeepAliveText[0] == ':';
  }

  // ---------------------------------------------------------------------
  // The producer: process_related_songs
  // ---------------------------------------------------------------------

  /** The `related_song` events for the accepted tracks, each with its raw position as index. */
  function SongEvents(accs: seq<Accepted>): seq<Event> {
    seq(|accs|, k requires 0 <= k < |accs| => Event(RelatedSongType, SongPayload(accs[k].song, Some(accs[k].position))))
  }

  /** The seed: the first search result, if `process_song` accepts it. */
  function Seed(query: string, p: Providers): Option<SongInfo> {
    match p.search(query)
    case Raised(_) => None
    case Returned(results) =>
      if results == [] then None else ProcessSong(results[0], None, p)
  }

  /** The events `process_related_songs` pushes, in order.
      - The search raises: one `error` with the exception's message.
      - The search finds nothing: one `error` "No related songs found".
      - The seed is rejected by `process_song`: one `complete`.
      - The watch-playlist call raises: one `error` with its message.
      - Otherwise one `related_song` per accepted track among the first
        eight, then `complete`, or `error` if a malformed track ended the walk. */
  function ProducedEvents(query: string, p: Providers): seq<Event> {
    match p.search(query)
    case Raised(m) => [ErrorEvent(m)]
    case Returned(results) =>
      if results == [] then [ErrorEvent(NoRelatedMessage)]
      else match Seed(query, p)
        case None => [CompleteEvent]
        case Some(seed) =>
          match p.watchPlaylist(seed.videoId)
          case Raised(m) => [ErrorEvent(m)]
          case Returned(tracks) => WalkEvents(TakePrefix(tracks, MaxRelated), seed.videoId, p)
  }

  /** The events of the walk over the related tracks: one `related_song`
      per accepted track, then `error` with the message of the malformed
      entry that ended the walk, or `complete`. */
  function WalkEvents(tracks: seq<Track>, seedId: string, p: Providers): seq<Event> {
    WalkEventsFrom(tracks, seedId, Decide(seedId, p), 0)
  }

  /** The event of one well-formed entry at 1-based `position`: a
      `related_song` event with that index when the entry is acceptable,
      none otherwise. */
  function TrackEvents(t: Track, position: nat, skipId: string, accept: Track -> Option<SongInfo>): seq<Event> {
    if Acceptable(t, skipId, accept)
    then [Event(RelatedSongType, SongPayload(accept(t).value, Some(position)))]
    else []
  }

  /** The events of the walk from entry `i` on: the end of the list gives
      `complete`, a malformed entry gives its error alone, a well-formed
      entry gives its own event, if any, before those of the rest. */
  function WalkEventsFrom(tracks: seq<Track>, skipId: string, accept: Track -> Option<SongInfo>, i: nat): seq<Event>
    requires i <= |tracks|
    decreases |tracks| - i
  {
    if i == |tracks| then [CompleteEvent]
    else if tracks[i].Malformed? then [ErrorEvent(tracks[i].error)]
    else TrackEvents(tracks[i], i + 1, skipId, accept) + WalkEventsFrom(tracks, skipId, accept, i + 1)
  }

  /** The events agree with the walk: one `related_song` per accepted
      track, with its position as index, then `error` with the message of
      the malformed entry that ended the walk, or `complete`. */
  lemma {:induction false} WalkEventsMatchWalk(tracks: seq<Track>, skipId: string, accept: Track -> Option<SongInfo>, i: nat)
    requires i <= |tracks|
    ensures var w := WalkTracks(tracks, skipId, accept, i);
      WalkEventsFrom(tracks, skipId, accept, i)
        == SongEvents(w.accepted) + [if w.failure.Some? then ErrorEvent(w.failure.value) else CompleteEvent]
    decreases |tracks| - i
  {
    if i < |tracks| && tracks[i].Track? {
      WalkEventsMatchWalk(tracks, skipId, accept, i + 1);
      WalkStep(tracks, skipId, accept, i);
      var here, next := WalkTracks(tracks, skipId, accept, i), WalkTracks(tracks, skipId, accept, i + 1);
      var head := TrackEvents(tracks[i], i + 1, skipId, accept);
      var last := [if next.failure.Some? then ErrorEvent(next.failure.value) else CompleteEvent];
      assert WalkEventsFrom(tracks, skipId, accept, i) == head + (SongEvents(next.accepted) + last);
      if Acceptable(tracks[i], skipId, accept) {
        var first := [Accepted(i + 1, accept(tracks[i]).value)];
        SongEventsAppend(first, next.accepted);
        assert SongEvents(first) == head;
        assert SongEvents(here.accepted) == head + SongEvents(next.accepted);
      } else {
        assert head == [] && here.accepted == next.accepted;
      }
      assert head + (SongEvents(next.accepted) + last) == (head + SongEvents(next.accepted)) + last;
    }
  }

  lemma SongEventsAppend(a: seq<Accepted>, b: seq<Accepted>)
    ensures SongEvents(a + b) == SongEvents(a) + SongEvents(b)
  {
  }

  /** An empty seed search pushes the one error event and nothing else. */
  lemma EmptySearchOnlyError(query: string, p: Providers)
    requires p.search(query) == Returned([])
    ensures ProducedEvents(query, p) == [ErrorEvent(NoRelatedMessage)]
  {
  }

  /** A search that raises pushes one error event carrying its message. */
  lemma SearchRaisedOnlyError(query: string, p: Providers)
    requires p.search(query).Raised?
    ensures ProducedEvents(query, p) == [ErrorEvent(p.search(query).message)]
  {
  }

  /** A first result that `process_song` rejects ends the run with a bare
      `complete`: no related tracks are fetched. */
  lemma RejectedSeedOnlyComplete(query: string, p: Providers)
    requires p.search(query).Returned? && p.search(query).value != []
    requires Seed(query, p).None?
    ensures ProducedEvents(query, p) == [CompleteEvent]
  {
  }

  /** A watch-playlist call that raises pushes one error event carrying its message. */
  lemma PlaylistRaisedOnlyError(query: string, p: Providers)
    requires Seed(query, p).Some? && p.watchPlaylist(Seed(query, p).value.videoId).Raised?
    ensures ProducedEvents(query, p) == [ErrorEvent(p.watchPlaylist(Seed(query, p).value.videoId).message)]
  {
  }

  /** The queue of a run holds exactly one terminal event, and it is last. */
  ghost predicate EndsWithOneTerminal(events: seq<Event>) {
    && events != []
    && IsTerminal(events[|events| - 1])
    && forall k :: 0 <= k < |events| - 1 ==> !IsTerminal(events[k])
  }

  lemma ProducedEndsWithOneTerminal(query: string, p: Providers)
    ensures EndsWithOneTerminal(ProducedEvents(query, p))
  {
    var seed := Seed(query, p);
    if seed.Some? && p.watchPlaylist(seed.value.videoId).Returned? {
      WalkEventsMatchWalk(TakePrefix(p.watchPlaylist(seed.value.videoId).value, MaxRelated), seed.value.videoId, Decide(seed.value.videoId, p), 0);
    }
  }

  /** `e` is a `related_song` event whose index is the raw 1-based
      position of an acceptable entry of `tracks`, whose record is the one
      `process_song` built for that entry, and which is not the seed. */
  ghost predicate SoundSongEvent(e: Event, tracks: seq<Track>, seedId: string, p: Providers) {
    && e.eventType == RelatedSongType && e.data.SongPayload?
    && e.data.index.Some? && 1 <= e.data.index.value <= |tracks|
    && Acceptable(tracks[e.data.index.value - 1], seedId, Decide(seedId, p))
    && ProcessSong(tracks[e.data.index.value - 1], Some(seedId), p) == Some(e.data.song)
    && e.data.song.videoId != seedId
  }

  /** The `related_song` events of a walk from the start of `tracks`: one
      sound event per accepted entry before the first malformed one, with
      strictly increasing indices. */
  lemma SongEventsSound(tracks: seq<Track>, seedId: string, p: Providers)
    ensures var w := WalkTracks(tracks, seedId, Decide(seedId, p), 0);
      var events := SongEvents(w.accepted);
      && |events| <= |tracks|
      && (forall k :: 0 <= k < |events| ==> SoundSongEvent(events[k], tracks, seedId, p))
      && (forall k, l :: 0 <= k < l < |events| ==> events[k].data.index.value < events[l].data.index.value)
  {
    var w := WalkTracks(tracks, seedId, Decide(seedId, p), 0);
    var events := SongEvents(w.accepted);
    WalkPositions(tracks, seedId, Decide(seedId, p), 0);
    forall k | 0 <= k < |events|
      ensures SoundSongEvent(events[k], tracks, seedId, p)
    {
      SongEventSoundAt(tracks, seedId, p, k);
    }
  }

  /** The `k`-th `related_song` event of a walk is sound. */
  lemma SongEventSoundAt(tracks: seq<Track>, seedId: string, p: Providers, k: nat)
    requires k < |WalkTracks(tracks, seedId, Decide(seedId, p), 0).accepted|
    ensures SoundSongEvent(SongEvents(WalkTracks(tracks, seedId, Decide(seedId, p), 0).accepted)[k], tracks, seedId, p)
  {
    var accepted := WalkTracks(tracks, seedId, Decide(seedId, p), 0).accepted;
    var a := accepted[k];
    assert SongEvents(accepted)[k] == Event(RelatedSongType, SongPayload(a.song, Some(a.position)));
    AcceptedNotSeed(tracks, seedId, p, k);
  }

  /** The `k`-th accepted track of a walk is acceptable, carries the record
      `process_song` built for it, and is not the seed. */
  lemma AcceptedNotSeed(tracks: seq<Track>, seedId: string, p: Providers, k: nat)
    requires k < |WalkTracks(tracks, seedId, Decide(seedId, p), 0).accepted|
    ensures var a := WalkTracks(tracks, seedId, Decide(seedId, p), 0).accepted[k];
      && 0 < a.position <= |tracks|
      && Acceptable(tracks[a.position - 1], seedId, Decide(seedId, p))
      && ProcessSong(tracks[a.position - 1], Some(seedId), p) == Some(a.song)
      && a.song.videoId != seedId
  {
    var a := WalkTracks(tracks, seedId, Decide(seedId, p), 0).accepted[k];
    WalkRecord(tracks, seedId, Decide(seedId, p), 0, k);
    ProcessSongContract(tracks[a.position - 1], Some(seedId), p);
  }

  /** The related-song events of a run: at most eight, all before the
      terminal event, indices strictly increasing within 1..8, each index the
      raw position of an acceptable track in the truncated playlist whose
      record `process_song` built, and never the seed's video id. */
  lemma ProducedRelatedSongs(query: string, p: Providers)
    ensures var events := ProducedEvents(query, p);
      && |events| <= MaxRelated + 1
      && (|events| > 1 ==> Seed(query, p).Some? && p.watchPlaylist(Seed(query, p).value.videoId).Returned?)
      && (forall k :: 0 <= k < |events| - 1 ==>
            var seed := Seed(query, p).value;
            var tracks := TakePrefix(p.watchPlaylist(seed.videoId).value, MaxRelated);
            && SoundSongEvent(events[k], tracks, seed.videoId, p)
            && events[k].data.index.value <= MaxRelated)
      && (forall k, l :: 0 <= k < l < |events| - 1 ==> events[k].data.index.value < events[l].data.index.value)
  {
    var events := ProducedEvents(query, p);
    if |events| > 1 {
      var seed := Seed(query, p).value;
      var tracks := TakePrefix(p.watchPlaylist(seed.videoId).value, MaxRelated);
      var w := WalkTracks(tracks, seed.videoId, Decide(seed.videoId, p), 0);
      SongEventsSound(tracks, seed.videoId, p);
      WalkEventsMatchWalk(tracks, seed.videoId, Decide(seed.videoId, p), 0);
      assert events[..|events| - 1] == SongEvents(w.accepted);
    }
  }

  /** When a malformed track ends the walk, the songs accepted before it are
      followed by one error carrying the exception's message, and no
      `complete` is pushed. */
  lemma WalkFailureEndsWithError(query: string, p: Providers)
    requires Seed(query, p).Some? && p.watchPlaylist(Seed(query, p).value.videoId).Returned?
    ensures var seed := Seed(query, p).value;
      var w := WalkTracks(TakePrefix(p.watchPlaylist(seed.videoId).value, MaxRelated), seed.videoId, Decide(seed.videoId, p), 0);
      var events := ProducedEvents(query, p);
      && (w.failure.Some? ==> events == SongEvents(w.accepted) + [ErrorEvent(w.failure.value)])
      && (w.failure.None? ==> events == SongEvents(w.accepted) + [CompleteEvent])
      && (w.failure.Some? <==> exists k :: 0 <= k < |events| && events[k].eventType == ErrorType)
      && (forall k :: 0 <= k < |events| && events[k].eventType == CompleteType ==> w.failure.None?)
  {
    var seed := Seed(query, p).value;
    WalkEventsMatchWalk(TakePrefix(p.watchPlaylist(seed.videoId).value, MaxRelated), seed.videoId, Decide(seed.videoId, p), 0);
    var events := ProducedEvents(query, p);
    assert events[|events| - 1].eventType == ErrorType || events[|events| - 1].eventType == CompleteType;
  }

  // ---------------------------------------------------------------------
  // The consumer: the generate() loop of stream_related
  // ---------------------------------------------------------------------

  /** How one `get(timeout=30)` on the session queue ends: with nothing
      within the timeout, or with the head of the queue. With no producer
      running in between, `Ready` on an empty queue also times out. */
  datatype Poll = Timeout | Ready

  /** What the stream emits: a keep-alive comment or one event. */
  datatype Frame = KeepAlive | EventFrame(event: Event)

  /** The emitted frames, what is left in the queue, and whether the loop
      reached a terminal event (CLOSED) or is still WAITING. */
  datatype Relay = Relay(frames: seq<Frame>, rest: seq<Event>, closed: bool)

  /** The consumer state machine run over `queue` with the wait outcomes
      `polls`: a timeout emits a keep-alive and consumes nothing; an event is
      emitted and removed; a terminal event closes the stream. */
  function RelayFrom(queue: seq<Event>, polls: seq<Poll>): Relay
    decreases |polls|
  {
    if polls == [] then Relay([], queue, false)
    else if polls[0] == Timeout || queue == [] then
      var r := RelayFrom(queue, polls[1..]);
      r.(frames := [KeepAlive] + r.frames)
    else if IsTerminal(queue[0]) then Relay([EventFrame(queue[0])], queue[1..], true)
    else
      var r := RelayFrom(queue[1..], polls[1..]);
      r.(frames := [EventFrame(queue[0])] + r.frames)
  }

  /** The events among the frames, in order. */
  function Delivered(frames: seq<Frame>): seq<Event> {
    if frames == [] then []
    else (if frames[0].EventFrame? then [frames[0].event] else []) + Delivered(frames[1..])
  }

  /** The frame text: the keep-alive comment, or `format_sse(json.dumps(data), event_type)`
      with the JSON encoder as a parameter. */
  function Render(f: Frame, encode: Payload -> string): string {
    match f
    case KeepAlive => KeepAliveText
    case EventFrame(e) => FormatSse(encode(e.data), Some(e.eventType))
  }

  function RenderAll(frames: seq<Frame>, encode: Payload -> string): seq<string> {
    seq(|frames|, k requires 0 <= k < |frames| => Render(frames[k], encode))
  }

  /** `r` continued after the frames `fs` already emitted. */
  function Resume(fs: seq<Frame>, r: Relay): Relay {
    r.(frames := fs + r.frames)
  }

  lemma ResumeTwice(a: seq<Frame>, b: seq<Frame>, r: Relay)
    ensures Resume(a, Resume(b, r)) == Resume(a + b, r)
  {
    assert a + (b + r.frames) == (a + b) + r.frames;
  }

  lemma RenderAllAppend(fs: seq<Frame>, f: Frame, encode: Payload -> string)
    ensures RenderAll(fs + [f], encode) == RenderAll(fs, encode) + [Render(f, encode)]
  {
  }

  /** Keep-alives consume nothing: the delivered events followed by what
      is left are exactly the queue, in order. */
  lemma {:induction false} RelayPreservesOrder(queue: seq<Event>, polls: seq<Poll>)
    ensures var r := RelayFrom(queue, polls); Delivered(r.frames) + r.rest == queue
    decreases |polls|
  {
    if polls != [] {
      if polls[0] == Timeout || queue == [] {
        RelayPreservesOrder(queue, polls[1..]);
        var r := RelayFrom(queue, polls[1..]);
        assert ([KeepAlive] + r.frames)[1..] == r.frames;
      } else if IsTerminal(queue[0]) {
        assert [EventFrame(queue[0])][1..] == [];
      } else {
        RelayPreservesOrder(queue[1..], polls[1..]);
        var r := RelayFrom(queue[1..], polls[1..]);
        assert ([EventFrame(queue[0])] + r.frames)[1..] == r.frames;
      }
    }
  }

  /** One frame per wait until the stream closes: a timeout's frame is the
      keep-alive comment, and a stream still waiting has answered every wait. */
  lemma {:induction false} RelayFramePerPoll(queue: seq<Event>, polls: seq<Poll>)
    ensures var r := RelayFrom(queue, polls);
      && |r.frames| <= |polls|
      && (!r.closed ==> |r.frames| == |polls|)
      && (forall k :: 0 <= k < |r.frames| && polls[k] == Timeout ==> r.frames[k] == KeepAlive)
    decreases |polls|
  {
    if polls != [] {
      var r := RelayFrom(queue, polls);
      if polls[0] == Timeout || queue == [] {
        RelayFramePerPoll(queue, polls[1..]);
        var r' := RelayFrom(queue, polls[1..]);
        assert forall k :: 0 < k < |r.frames| ==> r.frames[k] == r'.frames[k - 1] && polls[k] == polls[1..][k - 1];
      } else if !IsTerminal(queue[0]) {
        RelayFramePerPoll(queue[1..], polls[1..]);
        var r' := RelayFrom(queue[1..], polls[1..]);
        assert forall k :: 0 < k < |r.frames| ==> r.frames[k] == r'.frames[k - 1] && polls[k] == polls[1..][k - 1];
      }
    }
  }

  /** A frame carrying a terminal event. */
  predicate IsTerminalFrame(f: Frame) {
    f.EventFrame? && IsTerminal(f.event)
  }

  /** A closed stream's last frame is its only terminal frame; a stream
      still waiting has emitted none. */
  lemma {:induction false} RelayTerminalLast(queue: seq<Event>, polls: seq<Poll>)
    ensures var r := RelayFrom(queue, polls);
      && (r.closed ==> r.frames != [] && IsTerminalFrame(r.frames[|r.frames| - 1]))
      && (forall k :: 0 <= k < |r.frames| - 1 ==> !IsTerminalFrame(r.frames[k]))
      && (!r.closed ==> forall k :: 0 <= k < |r.frames| ==> !IsTerminalFrame(r.frames[k]))
    decreases |polls|
  {
    if polls != [] {
      if polls[0] == Timeout || queue == [] {
        RelayTerminalLast(queue, polls[1..]);
      } else if !IsTerminal(queue[0]) {
        RelayTerminalLast(queue[1..], polls[1..]);
      }
    }
  }

  /** The number of wait outcomes that deliver. */
  function ReadyCount(polls: seq<Poll>): nat {
    if polls == [] then 0 else (if polls[0] == Ready then 1 else 0) + ReadyCount(polls[1..])
  }

  /** A queue that ends with its only terminal event is drained completely
      once the waits deliver at least as often as there are events: the
      stream closes and has delivered every event in order. */
  lemma {:induction false} RelayDrains(queue: seq<Event>, polls: seq<Poll>)
    requires EndsWithOneTerminal(queue) && ReadyCount(polls) >= |queue|
    ensures var r := RelayFrom(queue, polls);
      r.closed && r.rest == [] && Delivered(r.frames) == queue
    decreases |polls|
  {
    RelayPreservesOrder(queue, polls);
    assert polls != [];
    if polls[0] == Timeout {
      RelayDrains(queue, polls[1..]);
    } else if !IsTerminal(queue[0]) {
      assert |queue| > 1;
      var tail := queue[1..];
      assert tail[|tail| - 1] == queue[|queue| - 1];
      forall k | 0 <= k < |tail| - 1 ensures !IsTerminal(tail[k]) {
        assert tail[k] == queue[k + 1];
      }
      RelayDrains(tail, polls[1..]);
    } else {
      assert |queue| == 1;
    }
  }

  /** End to end: the stream of a run, given enough delivering waits,
      closes after delivering exactly the events the producer pushed, the
      terminal one last. */
  lemma StreamDeliversRun(query: string, p: Providers, polls: seq<Poll>)
    requires ReadyCount(polls) >= |ProducedEvents(query, p)|
    ensures var r := RelayFrom(ProducedEvents(query, p), polls);
      r.closed && r.rest == [] && Delivered(r.frames) == ProducedEvents(query, p)
  {
    ProducedEndsWithOneTerminal(query, p);
    RelayDrains(ProducedEvents(query, p), polls);
  }
}
