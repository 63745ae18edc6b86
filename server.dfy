/** The Flask application's state and handlers: the map from session id to
    event queue, the helpers that create and fill queues, the producer that
    runs a discovery, the consumer loop behind `/stream_related_songs/<session_id>`,
    and the `/get_song` handler that starts a session. */
module Server {
  import opened Wrappers
  import opened Text
  import opened RelatedSongs
  import opened Events

  /** `event_queues` after `create_queue_for_session(sid)`: an empty queue
      is added when `sid` has none; an existing queue is kept as it is. */
  function WithQueue(queues: map<string, seq<Event>>, sid: string): (r: map<string, seq<Event>>)
    ensures sid in r && r.Keys == queues.Keys + {sid}
    ensures sid in queues ==> r[sid] == queues[sid]
    ensures sid !in queues ==> r[sid] == []
    ensures forall other | other in queues && other != sid :: r[other] == queues[other]
  {
    if sid in queues then queues else queues[sid := []]
  }

  /** Creating a queue twice is the same as creating it once. */
  lemma WithQueueIdempotent(queues: map<string, seq<Event>>, sid: string)
    ensures WithQueue(WithQueue(queues, sid), sid) == WithQueue(queues, sid)
  {
  }

  /** What a client sends to `/get_song`; a missing key is `None`. */
  datatype SongRequest = SongRequest(songName: Option<string>, username: Option<string>, sessionId: Option<string>)

  /** What `fetch_song_details` answers for a found song; only `title` and
      `artists` (already joined with ", ") enter the search query. */
  datatype SongDetails = SongDetails(title: string, artists: string, albumArt: string, audioUrl: Option<string>, videoId: string)

  /** The responses of `/get_song`. */
  datatype SubmitResponse =
    | MissingFields
    | NoResults
    | Started(sessionId: string, details: SongDetails, requestedBy: string, searchQuery: string)
  {
    function Status(): int {
      match this
      case MissingFields => 400
      case NoResults => 404
      case Started(_, _, _, _) => 200
    }
  }

  /** The responses of `/stream_related_songs/<session_id>`: 404 for an unknown
      session, otherwise the text frames written so far and whether the
      stream has ended. */
  datatype StreamResponse =
    | InvalidSession
    | Stream(frames: seq<string>, ended: bool)

  /** The search query `/get_song` builds from the song it found. */
  function SearchQuery(d: SongDetails): string {
    d.title + " " + d.artists
  }

  /** The queues of all sessions: `event_queues`. */
  class SessionRegistry {
    var queues: map<string, seq<Event>>

    constructor ()
      ensures queues == map[]
    {
      queues := map[];
    }

    /** `create_queue_for_session`. */
    method CreateQueueForSession(sid: string) returns (queue: seq<Event>)
      modifies this
      ensures queues == WithQueue(old(queues), sid)
      ensures queue == queues[sid]
    {
      if sid !in queues {
        queues := queues[sid := []];
      }
      queue := queues[sid];
    }

    /** `event_queues[sid].put(event)`: appends to a registered queue. */
    method Put(sid: string, event: Event)
      requires sid in queues
      modifies this
      ensures queues == old(queues)[sid := old(queues)[sid] + [event]]
    {
      queues := queues[sid := queues[sid] + [event]];
    }

    /** `send_song_info`: queues `(event_type, song + {"index": index})`
        when there is a song and the session has a queue; otherwise nothing
        changes. */
    method SendSongInfo(song: Option<SongInfo>, sid: string, index: Option<int>, eventType: string)
      modifies this
      ensures song.Some? && sid in old(queues) ==>
        queues == old(queues)[sid := old(queues)[sid] + [Event(eventType, SongPayload(song.value, index))]]
      ensures !(song.Some? && sid in old(queues)) ==> queues == old(queues)
    {
      if song.Some? && sid in queues {
        Put(sid, Event(eventType, SongPayload(song.value, index)));
      }
    }

    /** `process_related_songs(query, sid)` run to its end. For a session
        without a queue every unguarded `put`, the one in the exception
        handler included, raises `KeyError`, and the guarded one in
        `send_song_info` is skipped, so nothing is queued. */
    method ProcessRelatedSongs(query: string, sid: string, p: Providers)
      modifies this
      ensures sid in old(queues) ==> queues == old(queues)[sid := old(queues)[sid] + ProducedEvents(query, p)]
      ensures sid !in old(queues) ==> queues == old(queues)
    {
      if sid !in queues {
        return;
      }
      var results := p.search(query);
      if results.Raised? {
        Put(sid, ErrorEvent(results.message));
        return;
      }
      if results.value == [] {
        Put(sid, ErrorEvent(NoRelatedMessage));
        return;
      }
      var mainSong := ProcessSong(results.value[0], None, p);
      if mainSong.None? {
        Put(sid, CompleteEvent);
        return;
      }
      var seedId := mainSong.value.videoId;
      var related := p.watchPlaylist(seedId);
      if related.Raised? {
        Put(sid, ErrorEvent(related.message));
        return;
      }
      PushWalk(sid, TakePrefix(related.value, MaxRelated), seedId, p);
    }

    /** The `for index, track in enumerate(related_tracks, 1)` loop of
        `process_related_songs` and what follows it: the seed's own id is
        skipped, each accepted track is sent with its raw position as index,
        a malformed entry queues an error and ends the run, otherwise
        `complete` is queued. */
    method PushWalk(sid: string, tracks: seq<Track>, seedId: string, p: Providers)
      requires sid in queues
      modifies this
      ensures sid in queues && queues == old(queues)[sid := queues[sid]]
      ensures queues[sid] == old(queues)[sid] + WalkEvents(tracks, seedId, p)
    {
      ghost var final := old(queues)[sid] + WalkEvents(tracks, seedId, p);
      var i := 0;
      while i < |tracks|
        invariant 0 <= i <= |tracks|
        invariant sid in queues && queues == old(queues)[sid := queues[sid]]
        invariant queues[sid] + WalkEventsFrom(tracks, seedId, Decide(seedId, p), i) == final
      {
        var track := tracks[i];
        if track.Malformed? {
          assert WalkEventsFrom(tracks, seedId, Decide(seedId, p), i) == [ErrorEvent(track.error)];
          Put(sid, ErrorEvent(track.error));
          return;
        }
        ghost var before := queues[sid];
        ghost var step := TrackEvents(track, i + 1, seedId, Decide(seedId, p));
        ghost var rest := WalkEventsFrom(tracks, seedId, Decide(seedId, p), i + 1);
        assert WalkEventsFrom(tracks, seedId, Decide(seedId, p), i) == step + rest;
        PushTrack(sid, track, i + 1, seedId, p);
        AppendAssoc(before, step, rest);
        i := i + 1;
      }
      assert WalkEventsFrom(tracks, seedId, Decide(seedId, p), i) == [CompleteEvent];
      Put(sid, CompleteEvent);
    }

    /** One pass of that loop over a well-formed entry: skipped when it
        is the seed, otherwise sent with `index` when `process_song`
        accepts it. */
    method PushTrack(sid: string, track: Track, index: nat, seedId: string, p: Providers)
      requires sid in queues && track.Track?
      modifies this
      ensures queues == old(queues)[sid := old(queues)[sid] + TrackEvents(track, index, seedId, Decide(seedId, p))]
    {
      assert queues[sid] + [] == queues[sid];
      assert queues == queues[sid := queues[sid]];
      if track.videoId == Some(seedId) {
        return;
      }
      var song := ProcessSong(track, Some(seedId), p);
      SendSongInfo(song, sid, Some(index), RelatedSongType);
    }

    /** The `generate()` loop of `/stream_related_songs/<sid>` over the
        wait outcomes `polls`: each outcome yields a keep-alive or pops and
        yields the head event; a terminal event also deletes the session's
        queue and ends the loop. Returns the text written and whether the
        loop ended. */
    method Generate(sid: string, polls: seq<Poll>, encode: Payload -> string) returns (frames: seq<string>, ended: bool)
      requires sid in queues
      modifies this
      ensures var r := RelayFrom(old(queues)[sid], polls);
        && frames == RenderAll(r.frames, encode) && ended == r.closed
        && queues == if r.closed then old(queues) - {sid} else old(queues)[sid := r.rest]
    {
      ghost var emitted: seq<Frame> := [];
      ghost var whole := RelayFrom(old(queues)[sid], polls);
      assert Resume([], whole) == whole;
      frames := [];
      ended := false;
      var i := 0;
      while i < |polls|
        invariant 0 <= i <= |polls|
        invariant sid in queues && queues == old(queues)[sid := queues[sid]]
        invariant frames == RenderAll(emitted, encode)
        invariant Resume(emitted, RelayFrom(queues[sid], polls[i..])) == whole
      {
        var queue := queues[sid];
        ghost var here := polls[i..];
        assert here[0] == polls[i] && here[1..] == polls[i + 1..];
        var frame: Frame;
        if polls[i] == Timeout || queue == [] {
          frame := KeepAlive;
          assert RelayFrom(queue, here) == Resume([frame], RelayFrom(queue, polls[i + 1..]));
        } else {
          var event := queue[0];
          queues := queues[sid := queue[1..]];
          frame := EventFrame(event);
          if IsTerminal(event) {
            assert RelayFrom(queue, here) == Resume([frame], Relay([], queue[1..], true));
            RenderAllAppend(emitted, frame, encode);
            ResumeTwice(emitted, [frame], Relay([], queue[1..], true));
            frames := frames + [FormatSse(encode(event.data), Some(event.eventType))];
            queues := queues - {sid};
            ended := true;
            return;
          }
          assert RelayFrom(queue, here) == Resume([frame], RelayFrom(queue[1..], polls[i + 1..]));
        }
        RenderAllAppend(emitted, frame, encode);
        ResumeTwice(emitted, [frame], RelayFrom(queues[sid], polls[i + 1..]));
        frames := frames + [Render(frame, encode)];
        emitted := emitted + [frame];
        i := i + 1;
      }
      assert polls[i..] == [];
    }

    /** `/stream_related_songs/<sid>`: 404 for a session without a queue, which
        leaves every queue as it was; otherwise the stream of `Generate`. */
    method StreamRelated(sid: string, polls: seq<Poll>, encode: Payload -> string) returns (response: StreamResponse)
      modifies this
      ensures sid !in old(queues) ==> response == InvalidSession && queues == old(queues)
      ensures sid in old(queues) ==>
        var r := RelayFrom(old(queues)[sid], polls);
        && response == Stream(RenderAll(r.frames, encode), r.closed)
        && queues == if r.closed then old(queues) - {sid} else old(queues)[sid := r.rest]
    {
      if sid !in queues {
        return InvalidSession;
      }
      var frames, ended := Generate(sid, polls, encode);
      response := Stream(frames, ended);
    }

    /** `/get_song`: 400 when the song name or the username is missing or
        empty, before any queue is touched; otherwise the session id (the
        one given, or `freshId`) gets a queue, and the response is 404 when
        the song is not found, else the details and the search query the
        producer is started with. */
    method GetSong(request: SongRequest, freshId: string, details: string -> Option<SongDetails>)
      returns (response: SubmitResponse)
      modifies this
      ensures !Present(request.songName) || !Present(request.username) ==>
        response == MissingFields && response.Status() == 400 && queues == old(queues)
      ensures Present(request.songName) && Present(request.username) ==>
        var sid := if Present(request.sessionId) then request.sessionId.value else freshId;
        && queues == WithQueue(old(queues), sid)
        && (details(request.songName.value).None? ==> response == NoResults && response.Status() == 404)
        && (details(request.songName.value).Some? ==>
              var d := details(request.songName.value).value;
              response == Started(sid, d, request.username.value, SearchQuery(d)) && response.Status() == 200)
    {
      if !Present(request.songName) || !Present(request.username) {
        return MissingFields;
      }
      var sid := if Present(request.sessionId) then request.sessionId.value else freshId;
      var _ := CreateQueueForSession(sid);
      var found := details(request.songName.value);
      if found.None? {
        return NoResults;
      }
      response := Started(sid, found.value, request.username.value, SearchQuery(found.value));
    }

    /** One client session from start to end: the song request, the
        discovery it starts run to completion, then the stream. With
        enough delivering waits the stream ends, every event the discovery
        produced is delivered once and in order, and the registry is left
        as it was: the session's queue is gone and no other queue changed. */
    method RunSession(request: SongRequest, freshId: string, details: string -> Option<SongDetails>,
                      p: Providers, polls: seq<Poll>, encode: Payload -> string)
      returns (submitted: SubmitResponse, streamed: StreamResponse)
      requires (if Present(request.sessionId) then request.sessionId.value else freshId) !in queues
      requires Present(request.songName) && Present(request.username) && details(request.songName.value).Some?
      requires ReadyCount(polls) >= |ProducedEvents(SearchQuery(details(request.songName.value).value), p)|
      modifies this
      ensures submitted.Started?
      ensures var events := ProducedEvents(submitted.searchQuery, p);
        var r := RelayFrom(events, polls);
        && streamed == Stream(RenderAll(r.frames, encode), true)
        && Delivered(r.frames) == events
      ensures submitted.sessionId !in queues
      ensures queues == old(queues)
    {
      submitted := GetSong(request, freshId, details);
      var sid := submitted.sessionId;
      assert queues[sid] == [];
      ProcessRelatedSongs(submitted.searchQuery, sid, p);
      ghost var events := ProducedEvents(submitted.searchQuery, p);
      assert queues[sid] == events;
      StreamDeliversRun(submitted.searchQuery, p, polls);
      streamed := StreamRelated(sid, polls, encode);
    }
  }
}
