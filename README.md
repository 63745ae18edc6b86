# Related-song discovery and session event pipeline, in Dafny

This project models the core of a music back end. The back end takes a song
request, finds related songs on YouTube Music and streams them to the client
as server-sent events. The model has two parts.

- **Filter and enrichment rules** (`related_songs.py`):
  - the unwanted-title test;
  - the featured-artist extractor, which is one fixed regular expression;
  - thumbnail selection;
  - `process_song`, which validates a track, rejects it or builds a `SongInfo`;
  - `fetch_related_songs`, an ordered walk over a truncated track list.

  Provider calls are the fields of a `Providers` value: search, song
  thumbnails, watch playlist and audio-URL extraction. Each is a function of
  its argument. Search, thumbnails and watch playlist answer either a value or
  a raised exception (`Outcome`). The audio lookup answers a URL or `None`
  (`Option`), because `get_audio_url` turns every failure into `None`.
- **Session event pipeline** (`main.py`):
  - `event_queues`, the map from session id to a queue of `(event_type, data)`
    events, held by the class `SessionRegistry`;
  - the queue helpers and `format_sse`;
  - `process_related_songs`, the producer;
  - the `generate()` loop of `/stream_related_songs/<session_id>`, the consumer;
  - the `/get_song` handler.

Files:
- `wrappers.dfy`: `Option` and `Outcome`.
- `text.dfy`: the Python string operations the rules rely on. Lower-casing is
  ASCII only, whitespace is the `str.isspace` set, and `strip`, `split`,
  `find`, `in` and `startswith` are included.
- `related_songs.dfy`: the rules and the walk. The walk is also the
  specification that the loop of `FetchRelatedSongs` (`CollectAccepted`) is
  proved against.
- `events.dfy`: the events and the framing. It also holds the specification
  functions of both pipeline halves: `ProducedEvents` (what the producer
  queues) and `RelayFrom` (what the consumer emits for a queue and a sequence
  of wait outcomes), and the lemmas about them.
- `server.dfy`: the `SessionRegistry` class and its imperative methods, each
  proved against those specification functions, plus `RunSession`, which
  chains request, producer and stream.

The model follows the code as written:
- The `index` of a `related_song` event is the raw 1-based position of the
  track in the truncated list (`main.py:83`, `main.py:89`). It is not a
  counter of emitted songs, so indices strictly increase but can have gaps.
- Only tracks whose id equals the seed's are skipped before `process_song`.
  `process_song` then also rejects the same id, because it is called with the
  seed's id as `main_song_id`.
- `/get_song` creates the session's queue before it looks the song up
  (`main.py:170-172`). A 404 answer therefore still leaves the session
  registered, with a new empty queue if it had none.
- A session id sent as an empty string counts as missing and is replaced
  (`main.py:163-164`).
- The producer never queues anything for a session without a queue. Every
  unguarded `put`, including the one in its exception handler, raises
  `KeyError`, and the guarded one in `send_song_info` is skipped.

## Model

| member | source | states |
|---|---|---|
| Text.IsSpace | related_songs.py:33 | the characters `str.isspace` accepts, which is also the set `\s` matches in the pattern |
| Text.Lower | related_songs.py:39 | `str.lower`, for ASCII letters only: each `A`-`Z` becomes its lower-case letter and every other character is kept, which is where the model departs from Python |
| Text.Contains | related_songs.py:41 | the substring test `in`: some position of `s` starts a copy of `t` |
| Text.StartsWith | related_songs.py:49 | `str.startswith`: `s` begins with `p` |
| Text.Strip | related_songs.py:45 | `str.strip`: the result sits inside the input with only whitespace on either side, and does not itself start or end with whitespace |
| Text.Split | related_songs.py:45 | `str.split` on the pipe character: at least one piece, no piece holds the separator, every piece occurs in the input |
| Text.JoinSplit | related_songs.py:45 | joining the pieces of a split with the separator gives back the input |
| RelatedSongs.IsUnwantedTitle | related_songs.py:37-49 | `is_unwanted_title`: the keyword test on the lower-cased title, then the per-segment test, then the prefix test; its meaning is stated in `UnwantedIffKeyword` |
| RelatedSongs.UnwantedIffKeyword | related_songs.py:37-49 | a title is unwanted exactly when its lower-cased form contains a lower-cased keyword; the segment and prefix tests never decide on their own |
| RelatedSongs.SegmentHasKeyword | related_songs.py:44-47 | a title with a segment equal to a lower-cased keyword already passes the keyword test |
| RelatedSongs.SegmentInTitle | related_songs.py:45 | every stripped, lower-cased segment occurs in the lower-cased title |
| RelatedSongs.PrefixHasKeyword | related_songs.py:49 | a title with one of the three unwanted prefixes already passes the keyword test |
| RelatedSongs.LoweredKeywords | related_songs.py:49 | each of the three prefixes starts with the lower-cased keyword "lyrical", "audio" or "official music video" |
| RelatedSongs.MarkerAt | related_songs.py:33 | the alternation of `feat.`, `ft.` and `featuring`, ignoring case: a matched marker has a positive length and lies within the text; `MarkerIndexMatches` and `MarkerAtExact` state which marker it is |
| RelatedSongs.MarkersExclusive | related_songs.py:33 | at most one of the three markers matches at a position, so the order of the alternatives does not matter |
| RelatedSongs.MarkerAtExact | related_songs.py:33 | a marker present at a position is the one the alternation matches, with its own length |
| RelatedSongs.MarkerIndex | related_songs.py:33 | names an alternative from the given one on whenever the alternation matches |
| RelatedSongs.MarkerIndexMatches | related_songs.py:33 | the named alternative is present at the position and its length is the one the alternation reports |
| RelatedSongs.SpaceRun | related_songs.py:33 | `\s*` taken greedily: only whitespace, up to the first non-space or the end |
| RelatedSongs.SpaceRunExact | related_songs.py:33 | a whitespace run that ends at a non-space is exactly what `\s*` consumes |
| RelatedSongs.GroupAfterMarker | related_songs.py:33 | after a marker, the group is non-empty, holds no `)`, and is the text just before the closing `)` |
| RelatedSongs.GroupAfterSpaces | related_songs.py:33 | only whitespace lies between the marker and the captured group |
| RelatedSongs.GroupAfterMarkerNone | related_songs.py:33 | after a marker there is no group exactly when no `)` follows, or the first `)` follows the marker directly |
| RelatedSongs.GroupAfterMarkerComplete | related_songs.py:33 | whitespace, then a group starting with a non-space and running up to the first `)`: that group is captured and the match ends after the `)` |
| RelatedSongs.MatchAt | related_songs.py:33 | a match starts with `(`, ends with `)`, and its group is non-empty, holds no `)` and is the text just before the closing `)` |
| RelatedSongs.AfterOpen | related_songs.py:33 | the part of a match after its `(`: no match without a marker; otherwise a group that is non-empty, holds no `)` and ends just before the closing `)` |
| RelatedSongs.MatchAtUnfold | related_songs.py:33 | a match is `(`, the marker the alternation picks, then the group found after it |
| RelatedSongs.MatchAtSound | related_songs.py:33 | a match is `(`, a marker present in any case, only whitespace, then the group |
| RelatedSongs.MatchAtComplete | related_songs.py:33 | `(`, a marker, whitespace and a group up to the first `)` always match, with that group |
| RelatedSongs.FeaturedGroups | related_songs.py:34 | every group `findall` returns is non-empty and holds no `)` |
| RelatedSongs.FeaturedGroupsSkip | related_songs.py:34 | `findall` moves one position on, collecting nothing, wherever no match starts, whether or not that position holds a `(` |
| RelatedSongs.FeaturedGroupsSkipTo | related_songs.py:34 | `findall` passes over any stretch of text without `(` without collecting anything |
| RelatedSongs.FeaturedGroupsAtMatch | related_songs.py:34 | `findall` at a match collects its group and resumes after the closing `)` |
| RelatedSongs.NoMatchBetweenAll | related_songs.py:34 | the recursive predicate `NoMatchBetween` holds exactly when no match starts at any position of the stretch |
| RelatedSongs.NoMatchBetweenSound | related_songs.py:34 | when `NoMatchBetween` holds, no match starts at any position of the stretch |
| RelatedSongs.NoMatchBetweenComplete | related_songs.py:34 | when no match starts at any position of the stretch, `NoMatchBetween` holds |
| RelatedSongs.FeaturedGroupsStretchStep | related_songs.py:34 | one step over a stretch where no match starts collects nothing and leaves the rest of the stretch match-free |
| RelatedSongs.FeaturedGroupsSkipStretch | related_songs.py:34 | `findall` passes over a stretch where no match starts without collecting anything |
| RelatedSongs.FeaturedGroupsSkipNoMatch | related_songs.py:34 | `findall` passes over any stretch of positions where no match starts, `(` or not, without collecting anything |
| RelatedSongs.FeaturedGroupsFirst | related_songs.py:34 | `findall` takes the group of the first match after positions where no match starts, then continues after that match |
| RelatedSongs.ExtractFeaturedArtists | related_songs.py:31-35 | one name per match; every name holds no `)` and neither starts nor ends with whitespace |
| RelatedSongs.FeaturedNamesComeFromGroups | related_songs.py:35 | each name is its non-empty group, stripped |
| RelatedSongs.FirstFeaturedName | related_songs.py:31-35 | a title whose first match is a `(` opening a marker, whitespace and a group up to `)` names that group, stripped, first, even when unmatched `(` come before it |
| RelatedSongs.FeaturedExampleGroups | related_songs.py:34 | the only group in "Song (feat. Bob)" is "Bob" |
| RelatedSongs.StripKeepsBob | related_songs.py:35 | `"Bob".strip()` is `"Bob"`: a name with no surrounding whitespace is kept as it is |
| RelatedSongs.FeaturedExample | related_songs.py:31-35 | "Song (feat. Bob)" names exactly Bob |
| RelatedSongs.FirstLetterShown | related_songs.py:33 | a marker present at a position, in any case, shows its first letter there |
| RelatedSongs.MarkerStartsWithF | related_songs.py:33 | a marker matches only where the text has an `f` or `F` |
| RelatedSongs.LiveOpensNoMatch | related_songs.py:34 | in "Song (Live) (feat. Bob)" the `(` of "(Live)" opens no match |
| RelatedSongs.ScanPassesLive | related_songs.py:34 | in "Song (Live) (feat. Bob)" the scan reaches the second `(` having collected nothing |
| RelatedSongs.FeatMatchAfterLive | related_songs.py:33-34 | in "Song (Live) (feat. Bob)" the second `(` opens a match whose group is "Bob" and which ends the title |
| RelatedSongs.FeaturedAfterUnmatchedGroups | related_songs.py:34 | the only group in "Song (Live) (feat. Bob)" is "Bob": an unmatched `(` does not stop the scan |
| RelatedSongs.FeaturedAfterUnmatched | related_songs.py:31-35 | "Song (Live) (feat. Bob)" names exactly Bob |
| RelatedSongs.NoParenthesisNoFeatured | related_songs.py:31-35 | a title without `(` names no featured artists |
| RelatedSongs.FirstWidestIndex | related_songs.py:55 | `max(..., key=width)` picks the first entry of maximal width, a missing width counting as 0 |
| RelatedSongs.FirstWidestUnique | related_songs.py:55 | there is only one first entry of maximal width |
| RelatedSongs.GetBestThumbnail | related_songs.py:51-55 | `None` for no thumbnails, otherwise the url (possibly missing) of the first widest entry |
| RelatedSongs.LastLargestIndex | related_songs.py:129 | finds an entry with maximal (width, height) that no later entry matches or exceeds |
| RelatedSongs.InsertStable | related_songs.py:129 | inserting into a list sorted by (width, height) keeps it sorted and a permutation of the list plus the new entry |
| RelatedSongs.StableSort | related_songs.py:129 | `sorted` by (width, height) gives a sorted permutation of the thumbnails |
| RelatedSongs.StableSortLast | related_songs.py:129 | the last entry of the stable sort is the last entry of maximal (width, height) |
| RelatedSongs.StableSortLastStep | related_songs.py:129 | sorting one more thumbnail puts it last exactly when its (width, height) is at least that of the entry that was last |
| RelatedSongs.AlbumArt | related_songs.py:127-131 | the sentinel for no thumbnails; otherwise the url of a last entry of maximal (width, height), or a `KeyError` when it has no url |
| RelatedSongs.ArtistNames | related_songs.py:109 | the artist names in order, or a failure exactly when some artist has no name |
| RelatedSongs.ProcessSong | related_songs.py:104-151 | `process_song` as written, guard by guard; its meaning is stated in `ProcessSongContract` |
| RelatedSongs.ProcessSongContract | related_songs.py:104-151 | a record is built exactly when the track is a record with a title, an id and artists that all have names, is not the main song, has no unwanted title, and the thumbnail call and album-art choice both succeed; rejection when the track is not a record, lacks a title, id or artists, is the main song or has an unwanted title; an accepted record copies title, artists and id, carries the featured names of its title, the album art of the song's thumbnails and the audio lookup's answer |
| RelatedSongs.AudioDoesNotDecideAcceptance | related_songs.py:133-143 | whatever the audio lookup answers, acceptance and every other field stay the same |
| RelatedSongs.WalkTracks | related_songs.py:166-174 | the walk stops with the message of the first malformed entry, if there is one, and accepts at most one record per well-formed entry before it |
| RelatedSongs.WalkPositions | related_songs.py:166-174 | accepted positions lie before the first malformed entry and strictly increase |
| RelatedSongs.WalkRecord | related_songs.py:166-174 | every accepted record comes from a track at its position that is not the skipped id and that the decision accepts |
| RelatedSongs.WalkComplete | related_songs.py:166-174 | every acceptable track before the first malformed entry is accepted |
| RelatedSongs.WalkStep | related_songs.py:166-174 | one pass of the loop: a track that is skipped or rejected adds nothing; an accepted one adds its record in front of the rest |
| RelatedSongs.TakePrefix | related_songs.py:162 | Python's `[:n]`, including a negative `n` |
| RelatedSongs.FetchedSongs | related_songs.py:153-179 | what `fetch_related_songs` returns, as a function of the providers: the walk's records, or `[]` after any exception; its properties are stated in `FetchRelatedSongs`, `FetchFailureGivesNothing` and `FetchedSongsSelection` |
| RelatedSongs.FetchRelatedSongs | related_songs.py:153-179 | the playlist call, the first `max_results` tracks, then the loop with `process_song` as the decision: the accepted records of the walk in order, or `[]` after any exception |
| RelatedSongs.CollectAccepted | related_songs.py:163-176 | the loop over the tracks, for any decision: the accepted records of the walk in order, or `[]` when a malformed entry raises |
| RelatedSongs.ConsiderTrack | related_songs.py:168-174 | one pass of the loop keeps a record exactly when the track is not the skipped id and the decision accepts it, and keeps the record the decision built |
| RelatedSongs.FetchFailureGivesNothing | related_songs.py:177-179 | a raising playlist call, or a malformed entry among the first `max_results`, gives `[]` |
| RelatedSongs.FetchedSongsSelection | related_songs.py:162-176 | at most `max_results` songs; none is the main song, the playlist's own video or an unwanted title |
| Events.IsTerminal | main.py:205 | the test `event_type in ["complete", "error"]` that ends the stream |
| Events.FormatSse | main.py:46-51 | a frame ends with a blank line, and starts with an `event:` line exactly when an event name is given |
| Events.ParseFormatSse | main.py:46-51 | a frame reads back as the data and event name it was built from, when the name is one line |
| Events.Render | main.py:204-210 | an event frame is `format_sse` of the encoded data with the event type as name; a keep-alive is the comment line |
| Events.KeepAliveIsNoEvent | main.py:210 | the keep-alive comment never reads as an event frame |
| Events.ProducedEvents | main.py:61-96 | everything `process_related_songs` queues, branch by branch; its properties are stated in the lemmas that follow |
| Events.WalkEventsFrom | main.py:83-92 | the loop's events from one entry on; its meaning is stated in `WalkEventsMatchWalk` |
| Events.WalkEventsMatchWalk | main.py:83-92 | the loop queues one `related_song` per accepted track with its position as index, then `error` with the message of the malformed entry that ended it, or `complete` |
| Events.EmptySearchOnlyError | main.py:70-72 | an empty seed search queues the one error "No related songs found" and nothing else |
| Events.SearchRaisedOnlyError | main.py:65-68 | a raising seed search queues, through the handler at `main.py:94-96`, one error carrying its message and nothing else |
| Events.RejectedSeedOnlyComplete | main.py:74-92 | a first result that `process_song` rejects queues one `complete` and nothing else |
| Events.PlaylistRaisedOnlyError | main.py:76-79 | a raising watch-playlist call queues, through the handler at `main.py:94-96`, one error carrying its message and nothing else |
| Events.ProducedEndsWithOneTerminal | main.py:61-96 | every run queues exactly one terminal event, and it is last |
| Events.SongEventsSound | main.py:83-89 | each `related_song` event names an acceptable track at its index with the record `process_song` built, never the seed, and indices strictly increase |
| Events.SongEventSoundAt | main.py:83-89 | the `related_song` event queued for any one accepted track names an acceptable non-seed track at its index, with the record `process_song` built |
| Events.AcceptedNotSeed | main.py:84-89 | an accepted track is acceptable, carries `process_song`'s record and is not the seed |
| Events.ProducedRelatedSongs | main.py:81-92 | at most eight `related_song` events, before the terminal one, with strictly increasing indices in 1..8, each naming an acceptable non-seed track at that raw position |
| Events.WalkFailureEndsWithError | main.py:94-96 | a malformed track ends the run with one `error` carrying its message after the songs already queued, and no `complete`; otherwise `complete` follows them |
| Events.RelayFrom | main.py:200-210 | the `generate()` loop over a queue and a sequence of wait outcomes; its properties are stated in `RelayPreservesOrder`, `RelayTerminalLast` and `RelayDrains` |
| Events.RelayPreservesOrder | main.py:200-210 | keep-alives consume nothing: the delivered events followed by what is left are the queue, in order |
| Events.RelayFramePerPoll | main.py:200-210 | one frame per wait until the stream closes, every wait answered while it stays open, and a timed-out wait's frame is the keep-alive comment |
| Events.RelayTerminalLast | main.py:205-208 | a closed stream's last frame is its only terminal frame; an open stream has none |
| Events.RelayDrains | main.py:200-210 | with at least as many delivering waits as events, a queue ending in its only terminal event is drained, delivered in order, and the stream closes |
| Events.StreamDeliversRun | main.py:200-210 | the stream of a run, given enough delivering waits, closes after delivering exactly what the producer queued |
| Server.SearchQuery | main.py:177 | the f-string `f"{title} {artists}"`: the title, one space, then the artists |
| Server.WithQueue | main.py:40-44 | an existing queue is kept; otherwise one empty queue is added; no other entry changes |
| Server.WithQueueIdempotent | main.py:40-44 | creating a queue twice is the same as creating it once |
| Server.SessionRegistry.constructor | main.py:38 | the registry starts with no sessions |
| Server.SessionRegistry.CreateQueueForSession | main.py:40-44 | the map becomes `WithQueue` of the old map, and the session's queue is returned |
| Server.SessionRegistry.Put | main.py:59 | appends one event to a registered queue; nothing else changes |
| Server.SessionRegistry.SendSongInfo | main.py:53-59 | appends one event, with an index exactly when one is given, when the song is present and the session registered; otherwise nothing changes |
| Server.SessionRegistry.ProcessRelatedSongs | main.py:61-96 | a registered session's queue grows by exactly `ProducedEvents`, and no other queue changes; an unregistered session changes nothing |
| Server.SessionRegistry.PushWalk | main.py:83-92 | the loop appends exactly the walk's events to the session's queue, and no other queue changes |
| Server.SessionRegistry.PushTrack | main.py:84-89 | one pass appends the track's event when it is acceptable, and nothing otherwise |
| Server.SessionRegistry.Generate | main.py:200-210 | the frames written are the relay's frames rendered; a terminal event deletes the session's queue, otherwise the queue is what is left |
| Server.SessionRegistry.StreamRelated | main.py:194-210 | 404 and no change for an unknown session; otherwise the stream of `Generate` |
| Server.SessionRegistry.GetSong | main.py:154-192 | 400 and no change when the song name or username is missing or empty; otherwise the session gets a queue, then 404 when the song is not found, else the details and the search query "title artists" |
| Server.SessionRegistry.RunSession | main.py:154-210 | a fresh session's stream, given enough delivering waits, ends after delivering exactly the producer's events, and its queue is removed, every other session's queue unchanged |

## Left out

- Threads and event loops are not modelled. These are the background thread of `/get_song`, the per-thread asyncio loop, `run_in_executor` and the thread pool. `RunSession` runs the producer to completion before the stream starts.
- The timing of `get(timeout=30)` is not modelled. A sequence of wait outcomes (`Poll`) stands for it. `Ready` on an empty queue acts as a timeout, because no producer runs at the same time.
- Provider calls are fixed functions in `Providers`. This covers YouTube Music search, `get_song`, `get_watch_playlist` and yt-dlp. The `.get('videoDetails', {})...` chain and `related_data.get('tracks', [])` are folded into those functions.
- `get_audio_url` is not modelled: its answer is the `audioUrl` provider, which already turns every failure into `None`. `search_song` is not used by the core and is not part of this model.
- `fetch_song_details` is not modelled: its answer is the `details` parameter of `GetSong`. Its own search, thumbnail sort and audio extraction are provider I/O.
- Flask request parsing, `jsonify`, `Response` headers, `asdict` and `json.dumps` are not modelled. JSON encoding is the `encode` parameter. A request body that is not JSON (`request.json` is `None`) is not modelled.
- `uuid.uuid4()` is not modelled: the `freshId` parameter stands for the new session id.
- Logging, `print_song_info`, the progress prints of `fetch_related_songs` and `process_query` are not modelled. They are console output only, and `process_song`'s `index` argument is used only for that output.
- Lower-casing and `re.IGNORECASE` cover ASCII letters only. Unicode case mapping is not modelled.
- The regex engine is not modelled in general. Only the one fixed featured-artist pattern is, with its backtracking written out: `\s*` gives back one whitespace character when `[^\)]+` would otherwise be empty.
- A provider that raises something other than an exception is not modelled, and neither is an exception raised by the JSON encoder.
- ProcessSong: carries no postcondition of its own. Its promises are stated and proved in `ProcessSongContract`.
