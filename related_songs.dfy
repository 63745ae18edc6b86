/** The filter and enrichment rules for related songs: the unwanted-title
    test, the featured-artist extractor, thumbnail selection, the per-song
    validate-and-build step and the ordered walk over a related-track list.
    Provider calls (YouTube Music search, song details, watch playlist and
    the audio-URL extractor) are the fields of `Providers`. */
module RelatedSongs {
  import opened Wrappers
  import opened Text

  // ---------------------------------------------------------------------
  // Records
  // ---------------------------------------------------------------------

  /** One entry of a thumbnail list; a missing key is `None`. */
  datatype Thumbnail = Thumbnail(url: Option<string>, width: Option<int>, height: Option<int>)

  /** One entry of a track's `artists` list; `name` is `None` when the key is missing. */
  datatype Artist = Artist(name: Option<string>)

  /** A track record as the metadata provider returns it. A missing `title`
      or `videoId` is `None`, a missing `artists` list is `[]`. `Malformed`
      stands for an entry that is not a record at all: asking it for a key
      raises, with the given message. */
  datatype Track =
    | Track(title: Option<string>, videoId: Option<string>, artists: seq<Artist>)
    | Malformed(error: string)

  /** The `SongInfo` dataclass. */
  datatype SongInfo = SongInfo(
    title: string,
    artists: seq<string>,
    videoId: string,
    albumArtUrl: string,
    audioUrl: Option<string>,
    featuring: seq<string>)

  /** The external calls, as functions of their argument.
      - `search(q)`: `search(q, filter="songs", limit=1)`.
      - `songThumbnails(id)`: `get_song(id)["videoDetails"]["thumbnail"]["thumbnails"]`,
        `[]` when any of these keys is missing.
      - `watchPlaylist(id)`: `get_watch_playlist(videoId=id)["tracks"]`, `[]` when missing.
      - `audioUrl(id)`: `get_audio_url(id)`, which already turns every failure into `None`. */
  datatype Providers = Providers(
    search: string -> Outcome<seq<Track>>,
    songThumbnails: string -> Outcome<seq<Thumbnail>>,
    watchPlaylist: string -> Outcome<seq<Track>>,
    audioUrl: string -> Option<string>)

  // ---------------------------------------------------------------------
  // Unwanted titles
  // ---------------------------------------------------------------------

  const SkipKeywords: seq<string> := [
    "Latest", "Cover", "Remix", "Extended", "version", "Karaoke",
    "Lyrical", "Instrumental", "Audio", "Official Music Video"
  ]

  const UnwantedPrefixes: seq<string> := ["lyrical:", "audio:", "official music video:"]

  /** Some lower-cased keyword occurs in `titleLower`. */
  predicate HasSkipKeyword(titleLower: string) {
    exists k | 0 <= k < |SkipKeywords| :: Contains(titleLower, Lower(SkipKeywords[k]))
  }

  /** The `|`-separated segments of a title, each stripped and lower-cased. */
  function Segments(title: string): (segs: seq<string>)
    ensures |segs| == |Split(title, '|')|
    ensures forall i :: 0 <= i < |segs| ==> segs[i] == Lower(Strip(Split(title, '|')[i]))
  {
    var pieces := Split(title, '|');
    seq(|pieces|, i requires 0 <= i < |pieces| => Lower(Strip(pieces[i])))
  }

  /** The title has a `|` and one of its segments is exactly a lower-cased keyword. */
  predicate HasSkipSegment(title: string) {
    '|' in title && exists k | 0 <= k < |SkipKeywords| :: Lower(SkipKeywords[k]) in Segments(title)
  }

  predicate HasUnwantedPrefix(titleLower: string) {
    exists k | 0 <= k < |UnwantedPrefixes| :: StartsWith(titleLower, UnwantedPrefixes[k])
  }

  /** `is_unwanted_title`: the keyword test, then the segment test, then the prefix test. */
  predicate IsUnwantedTitle(title: string) {
    var lower := Lower(title);
    HasSkipKeyword(lower) || HasSkipSegment(title) || HasUnwantedPrefix(lower)
  }

  /** The segment and prefix tests add nothing: a title is unwanted exactly
      when its lower-cased form contains a lower-cased keyword. */
  lemma UnwantedIffKeyword(title: string)
    ensures IsUnwantedTitle(title) <==> HasSkipKeyword(Lower(title))
  {
    if HasSkipSegment(title) {
      SegmentHasKeyword(title);
    }
    if HasUnwantedPrefix(Lower(title)) {
      PrefixHasKeyword(title);
    }
  }

  /** A segment equal to a keyword is a substring of the title. */
  lemma SegmentHasKeyword(title: string)
    requires HasSkipSegment(title)
    ensures HasSkipKeyword(Lower(title))
  {
    var k :| 0 <= k < |SkipKeywords| && Lower(SkipKeywords[k]) in Segments(title);
    var segs := Segments(title);
    var i :| 0 <= i < |segs| && segs[i] == Lower(SkipKeywords[k]);
    SegmentInTitle(title, i);
  }

  /** Every segment occurs in the lower-cased title. */
  lemma SegmentInTitle(title: string, i: nat)
    requires i < |Segments(title)|
    ensures Contains(Lower(title), Segments(title)[i])
  {
    var piece := Split(title, '|')[i];
    StripContained(piece);
    ContainsTransitive(title, piece, Strip(piece));
    LowerContains(title, Strip(piece));
  }

  /** Each unwanted prefix starts with a lower-cased keyword. */
  lemma PrefixHasKeyword(title: string)
    requires HasUnwantedPrefix(Lower(title))
    ensures HasSkipKeyword(Lower(title))
  {
    var lower := Lower(title);
    var k :| 0 <= k < |UnwantedPrefixes| && StartsWith(lower, UnwantedPrefixes[k]);
    LoweredKeywords();
    var kw := if k == 0 then 6 else if k == 1 then 8 else 9;
    StartsWithContains(lower, UnwantedPrefixes[k], Lower(SkipKeywords[kw]));
  }

  /** The three prefixes start with the lower-cased keywords "Lyrical",
      "Audio" and "Official Music Video". */
  lemma LoweredKeywords()
    ensures StartsWith(UnwantedPrefixes[0], Lower(SkipKeywords[6]))
    ensures StartsWith(UnwantedPrefixes[1], Lower(SkipKeywords[8]))
    ensures StartsWith(UnwantedPrefixes[2], Lower(SkipKeywords[9]))
  {
    var s := SkipKeywords[9];
    forall k | 0 <= k < |s|
      ensures LowerChar(s[k]) == UnwantedPrefixes[2][k]
    {
    }
  }

  // ---------------------------------------------------------------------
  // Featured artists: findall of  \((feat\.|ft\.|featuring)\s*([^\)]+)\)
  // with re.IGNORECASE
  // ---------------------------------------------------------------------

  /** The alternatives of the group, in the order the regex tries them. */
  const FeatureMarkers: seq<string> := ["feat.", "ft.", "featuring"]

  /** `s[k..]` starts with `p`, ignoring case (`p` is lower case). */
  predicate StartsWithIgnoringCase(s: string, k: nat, p: string)
    requires k <= |s|
  {
    k + |p| <= |s| && Lower(s[k..k + |p|]) == p
  }

  /** The length of the first alternative, from `FeatureMarkers[m]` on, that matches at `k`. */
  function MarkerAt(s: string, k: nat, m: nat := 0): (r: Option<nat>)
    requires k <= |s| && m <= |FeatureMarkers|
    ensures r.Some? ==> 0 < r.value && k + r.value <= |s|
    decreases |FeatureMarkers| - m
  {
    if m == |FeatureMarkers| then None
    else if StartsWithIgnoringCase(s, k, FeatureMarkers[m]) then Some(|FeatureMarkers[m]|)
    else MarkerAt(s, k, m + 1)
  }

  /** Two markers that both match at `k` agree at every position they share. */
  lemma SameLetters(s: string, k: nat, p: string, q: string, t: nat)
    requires k <= |s| && StartsWithIgnoringCase(s, k, p) && StartsWithIgnoringCase(s, k, q)
    requires t < |p| && t < |q|
    ensures p[t] == q[t]
  {
    assert p[t] == Lower(s[k..k + |p|])[t] == LowerChar(s[k + t]);
    assert q[t] == Lower(s[k..k + |q|])[t] == LowerChar(s[k + t]);
  }

  /** At most one marker matches at a position: "feat." and "ft." differ in
      their second letter, "feat." and "featuring" in their fifth, so which
      alternative the regex tries first does not matter. */
  lemma MarkersExclusive(s: string, k: nat, m: nat, n: nat)
    requires k <= |s| && m < |FeatureMarkers| && n < |FeatureMarkers|
    requires StartsWithIgnoringCase(s, k, FeatureMarkers[m]) && StartsWithIgnoringCase(s, k, FeatureMarkers[n])
    ensures m == n
  {
    if m != n {
      var t := if (m == 0 && n == 2) || (m == 2 && n == 0) then 4 else 1;
      SameLetters(s, k, FeatureMarkers[m], FeatureMarkers[n], t);
    }
  }

  /** A marker that matches at `k` is the one `MarkerAt` finds, trying the
      alternatives from `j` on. */
  lemma {:induction false} MarkerAtExact(s: string, k: nat, m: nat, j: nat := 0)
    requires k <= |s| && m < |FeatureMarkers| && StartsWithIgnoringCase(s, k, FeatureMarkers[m])
    requires j <= m
    ensures MarkerAt(s, k, j) == Some(|FeatureMarkers[m]|)
    decreases m - j
  {
    if StartsWithIgnoringCase(s, k, FeatureMarkers[j]) {
      MarkersExclusive(s, k, j, m);
    } else {
      MarkerAtExact(s, k, m, j + 1);
    }
  }

  /** Which alternative `MarkerAt` matched, when one did. */
  function MarkerIndex(s: string, k: nat, m: nat := 0): (n: nat)
    requires k <= |s| && m <= |FeatureMarkers|
    ensures MarkerAt(s, k, m).Some? ==> m <= n < |FeatureMarkers|
    decreases |FeatureMarkers| - m
  {
    if m == |FeatureMarkers| || StartsWithIgnoringCase(s, k, FeatureMarkers[m]) then m
    else MarkerIndex(s, k, m + 1)
  }

  /** The alternative `MarkerIndex` names is present at `k` and has the length `MarkerAt` reports. */
  lemma {:induction false} MarkerIndexMatches(s: string, k: nat, m: nat := 0)
    requires k <= |s| && m <= |FeatureMarkers| && MarkerAt(s, k, m).Some?
    ensures var n := MarkerIndex(s, k, m);
      n < |FeatureMarkers| && StartsWithIgnoringCase(s, k, FeatureMarkers[n])
      && MarkerAt(s, k, m) == Some(|FeatureMarkers[n]|)
    decreases |FeatureMarkers| - m
  {
    if !StartsWithIgnoringCase(s, k, FeatureMarkers[m]) {
      MarkerIndexMatches(s, k, m + 1);
    }
  }

  /** A marker present at `k` shows its first letter there. */
  lemma FirstLetterShown(s: string, k: nat, p: string)
    requires k <= |s| && p != [] && StartsWithIgnoringCase(s, k, p)
    ensures k < |s| && LowerChar(s[k]) == p[0]
  {
    assert Lower(s[k..k + |p|])[0] == LowerChar(s[k]);
  }

  /** Every marker begins with an `f`, in any case. */
  lemma {:induction false} MarkerStartsWithF(s: string, k: nat, m: nat := 0)
    requires k <= |s| && m <= |FeatureMarkers|
    ensures MarkerAt(s, k, m).Some? ==> k < |s| && LowerChar(s[k]) == 'f'
    decreases |FeatureMarkers| - m
  {
    if m < |FeatureMarkers| {
      if StartsWithIgnoringCase(s, k, FeatureMarkers[m]) {
        assert FeatureMarkers[m][0] == 'f';
        FirstLetterShown(s, k, FeatureMarkers[m]);
      } else {
        MarkerStartsWithF(s, k, m + 1);
      }
    }
  }

  /** The number of whitespace characters from `k` on. */
  function SpaceRun(s: string, k: nat): (n: nat)
    requires k <= |s|
    ensures k + n <= |s| && AllSpace(s[k..k + n])
    ensures k + n < |s| ==> !IsSpace(s[k + n])
    decreases |s| - k
  {
    if k == |s| || !IsSpace(s[k]) then 0
    else
      var n := 1 + SpaceRun(s, k + 1);
      assert s[k..k + n] == [s[k]] + s[k + 1..k + n];
      n
  }

  /** A whitespace run from `k` that stops at the non-space `s[a]` is the one `SpaceRun` measures. */
  lemma SpaceRunExact(s: string, k: nat, a: nat)
    requires k <= a < |s| && AllSpace(s[k..a]) && !IsSpace(s[a])
    ensures SpaceRun(s, k) == a - k
  {
  }

  /** One match: the text of the second group and the position after the closing `)`. */
  datatype FeatMatch = FeatMatch(group: string, end: nat)

  /** The group `s[start..j]` closed by the `)` at `j`. */
  function GroupUpTo(s: string, start: nat, j: nat): (m: FeatMatch)
    requires start < j < |s| && s[j] == ')'
    requires forall t :: start <= t < j ==> s[t] != ')'
    ensures m.end == j + 1 && m.group != [] && ')' !in m.group
    ensures |m.group| == j - start && m.group == s[start..j]
  {
    FeatMatch(s[start..j], j + 1)
  }

  /** The rest of the regex after the marker, from position `k`: `\s*`
      takes the whitespace run and `[^\)]+` everything up to the first `)`;
      when that leaves `[^\)]+` empty, `\s*` gives back one whitespace
      character. */
  function GroupAfterMarker(s: string, k: nat): (r: Option<FeatMatch>)
    requires k <= |s|
    ensures r.Some? ==> k < r.value.end <= |s| && s[r.value.end - 1] == ')'
    ensures r.Some? ==> r.value.group != [] && ')' !in r.value.group
    ensures r.Some? ==> |r.value.group| <= r.value.end - 1 - k
    ensures r.Some? ==> r.value.group == s[r.value.end - 1 - |r.value.group|..r.value.end - 1]
  {
    var w := SpaceRun(s, k);
    match IndexOf(s, ')', k + w)
    case None => None
    case Some(j) =>
      if j == k + w && w == 0 then None
      else if j > k + w then Some(GroupUpTo(s, k + w, j))
      else
        assert IsSpace(s[k..k + w][w - 1]);
        Some(GroupUpTo(s, k + w - 1, j))
  }

  /** Only whitespace lies between the marker and the group. */
  lemma GroupAfterSpaces(s: string, k: nat, g: FeatMatch)
    requires k <= |s| && GroupAfterMarker(s, k) == Some(g)
    ensures k <= g.end - 1 - |g.group| && forall t | k <= t < g.end - 1 - |g.group| :: IsSpace(s[t])
  {
    var w := SpaceRun(s, k);
    forall t | k <= t < g.end - 1 - |g.group|
      ensures IsSpace(s[t])
    {
      assert s[t] == s[k..k + w][t - k];
    }
  }

  /** The group is missing only when no `)` follows the marker, or when
      one follows it directly. */
  lemma GroupAfterMarkerNone(s: string, k: nat)
    requires k <= |s|
    ensures GroupAfterMarker(s, k).None? <==>
      (forall t :: k <= t < |s| ==> s[t] != ')') || (k < |s| && s[k] == ')')
  {
    var w := SpaceRun(s, k);
    forall t | k <= t < k + w ensures s[t] != ')' {
      assert IsSpace(s[k..k + w][t - k]);
    }
  }

  /** The regex tried at position `i`: `(`, a marker, then the group. */
  function MatchAt(s: string, i: nat): (r: Option<FeatMatch>)
    requires i < |s|
    ensures r.Some? ==> s[i] == '(' && i < r.value.end <= |s| && s[r.value.end - 1] == ')'
    ensures r.Some? ==> r.value.group != [] && ')' !in r.value.group
    ensures r.Some? ==> |r.value.group| < r.value.end - i
    ensures r.Some? ==> r.value.group == s[r.value.end - 1 - |r.value.group|..r.value.end - 1]
  {
    if s[i] != '(' then None
    else AfterOpen(s, i + 1, MarkerAt(s, i + 1))
  }

  /** The rest of a match after its `(` at `k - 1`: a marker of width
      `marker`, if there is one, then the group. */
  function AfterOpen(s: string, k: nat, marker: Option<nat>): (r: Option<FeatMatch>)
    requires 0 < k <= |s| && (marker.Some? ==> 0 < marker.value && k + marker.value <= |s|)
    ensures r.Some? ==> k < r.value.end <= |s| && s[r.value.end - 1] == ')'
    ensures r.Some? ==> r.value.group != [] && ')' !in r.value.group
    ensures r.Some? ==> |r.value.group| < r.value.end - k
    ensures r.Some? ==> r.value.group == s[r.value.end - 1 - |r.value.group|..r.value.end - 1]
  {
    match marker
    case None => None
    case Some(m) => GroupAfterMarker(s, k + m)
  }

  /** The second groups of all non-overlapping matches from position `i` on, left to right. */
  function FeaturedGroups(s: string, i: nat): (groups: seq<string>)
    requires i <= |s|
    ensures forall k :: 0 <= k < |groups| ==> groups[k] != [] && ')' !in groups[k]
    decreases |s| - i
  {
    if i == |s| then []
    else match MatchAt(s, i)
      case Some(m) =>
        var rest := FeaturedGroups(s, m.end);
        assert forall k :: 0 < k <= |rest| ==> ([m.group] + rest)[k] == rest[k - 1];
        [m.group] + rest
      case None => FeaturedGroups(s, i + 1)
  }

  /** `extract_featured_artists`: every group, stripped. Each name is
      trimmed and has no `)`. */
  function ExtractFeaturedArtists(title: string): (names: seq<string>)
    ensures |names| == |FeaturedGroups(title, 0)|
    ensures forall k :: 0 <= k < |names| ==> ')' !in names[k]
    ensures forall k :: 0 <= k < |names| ==>
      names[k] == [] || (!IsSpace(names[k][0]) && !IsSpace(names[k][|names[k]| - 1]))
  {
    var groups := FeaturedGroups(title, 0);
    var names := seq(|groups|, k requires 0 <= k < |groups| => Strip(groups[k]));
    forall k | 0 <= k < |names|
      ensures ')' !in names[k]
    {
      var g := groups[k];
      var a := StripStart(g);
      assert forall c | c in names[k] :: c in g[a..a + |names[k]|];
    }
    names
  }

  /** A match at `i` is the group found after the marker that `MarkerAt` picks. */
  lemma MatchAtUnfold(s: string, i: nat)
    requires i < |s| && MatchAt(s, i).Some?
    ensures s[i] == '(' && MarkerAt(s, i + 1).Some?
    ensures MatchAt(s, i) == GroupAfterMarker(s, i + 1 + MarkerAt(s, i + 1).value)
  { }

  /** The text of a match from `i` up to `start`, where its group begins:
      `(`, the marker `FeatureMarkers[m]` in any case, then only whitespace. */
  predicate OpensWithMarker(s: string, i: nat, m: nat, start: nat)
    requires i < start <= |s| && m < |FeatureMarkers|
  {
    && s[i] == '('
    && StartsWithIgnoringCase(s, i + 1, FeatureMarkers[m])
    && i + 1 + |FeatureMarkers[m]| <= start
    && forall t | i + 1 + |FeatureMarkers[m]| <= t < start :: IsSpace(s[t])
  }

  /** A match is `(`, one of the markers in any case, whitespace, then the group. */
  lemma MatchAtSound(s: string, i: nat)
    requires i < |s| && MatchAt(s, i).Some?
    ensures var g := MatchAt(s, i).value;
      OpensWithMarker(s, i, MarkerIndex(s, i + 1), g.end - 1 - |g.group|)
  {
    MatchAtUnfold(s, i);
    var m := MarkerIndex(s, i + 1);
    MarkerIndexMatches(s, i + 1);
    GroupAfterSpaces(s, i + 1 + |FeatureMarkers[m]|, MatchAt(s, i).value);
  }

  /** `(`, a marker, a whitespace run, then a group that starts with a
      non-space and runs up to the first `)`: the regex matches there and
      returns that group. */
  lemma MatchAtComplete(s: string, i: nat, m: nat, a: nat, j: nat)
    requires i < |s| && s[i] == '(' && m < |FeatureMarkers| && StartsWithIgnoringCase(s, i + 1, FeatureMarkers[m])
    requires i + 1 + |FeatureMarkers[m]| <= a < j < |s|
    requires AllSpace(s[i + 1 + |FeatureMarkers[m]|..a]) && !IsSpace(s[a])
    requires s[j] == ')' && forall t :: a <= t < j ==> s[t] != ')'
    ensures MatchAt(s, i) == Some(FeatMatch(s[a..j], j + 1))
  {
    MarkerAtExact(s, i + 1, m);
    GroupAfterMarkerComplete(s, i + 1 + |FeatureMarkers[m]|, a, j);
  }

  /** After the marker, a whitespace run, then a group that starts with a
      non-space and runs up to the first `)`: that group is taken. */
  lemma GroupAfterMarkerComplete(s: string, k: nat, a: nat, j: nat)
    requires k <= a < j < |s| && AllSpace(s[k..a]) && !IsSpace(s[a])
    requires s[j] == ')' && forall t :: a <= t < j ==> s[t] != ')'
    ensures GroupAfterMarker(s, k) == Some(FeatMatch(s[a..j], j + 1))
  {
    SpaceRunExact(s, k, a);
    assert IndexOf(s, ')', a) == Some(j);
  }

  /** `findall` moves one position on where no match starts, whether or
      not that position holds a `(`. */
  lemma FeaturedGroupsSkip(s: string, i: nat)
    requires i < |s| && MatchAt(s, i).None?
    ensures FeaturedGroups(s, i) == FeaturedGroups(s, i + 1)
  {
  }

  /** `findall` at a match takes its group, then goes on after the match. */
  lemma FeaturedGroupsAtMatch(s: string, q: nat, g: FeatMatch)
    requires q < |s| && MatchAt(s, q) == Some(g)
    ensures FeaturedGroups(s, q) == [g.group] + FeaturedGroups(s, g.end)
  {
  }

  /** `findall` skips text that holds no `(`. */
  lemma {:induction false} FeaturedGroupsSkipTo(s: string, i: nat, q: nat)
    requires i <= q <= |s| && '(' !in s[i..q]
    ensures FeaturedGroups(s, i) == FeaturedGroups(s, q)
    decreases q - i
  {
    if i < q {
      assert s[i] == s[i..q][0] && s[i + 1..q] == s[i..q][1..];
      FeaturedGroupsSkip(s, i);
      FeaturedGroupsSkipTo(s, i + 1, q);
    }
  }

  /** No match starts at any position from `i` up to, not including, `q`. */
  predicate NoMatchBetween(s: string, i: nat, q: nat)
    requires i <= q <= |s|
    decreases q - i
  {
    i == q || (MatchAt(s, i).None? && NoMatchBetween(s, i + 1, q))
  }

  /** `NoMatchBetween` holds exactly when no match starts at any position
      of the stretch. */
  lemma NoMatchBetweenAll(s: string, i: nat, q: nat)
    requires i <= q <= |s|
    ensures NoMatchBetween(s, i, q) <==> forall t :: i <= t < q ==> MatchAt(s, t).None?
  {
    if NoMatchBetween(s, i, q) {
      NoMatchBetweenSound(s, i, q);
    } else if forall t :: i <= t < q ==> MatchAt(s, t).None? {
      NoMatchBetweenComplete(s, i, q);
    }
  }

  /** `NoMatchBetween` rules out a match at every position of the stretch. */
  lemma {:induction false} NoMatchBetweenSound(s: string, i: nat, q: nat)
    requires i <= q <= |s| && NoMatchBetween(s, i, q)
    ensures forall t :: i <= t < q ==> MatchAt(s, t).None?
    decreases q - i
  {
    if i < q {
      NoMatchBetweenSound(s, i + 1, q);
      forall t | i <= t < q
        ensures MatchAt(s, t).None?
      {
        if t == i {
          assert MatchAt(s, i).None? && NoMatchBetween(s, i + 1, q);
        }
      }
    }
  }

  /** No match at any position of the stretch gives `NoMatchBetween`. */
  lemma {:induction false} NoMatchBetweenComplete(s: string, i: nat, q: nat)
    requires i <= q <= |s|
    requires forall t :: i <= t < q ==> MatchAt(s, t).None?
    ensures NoMatchBetween(s, i, q)
    decreases q - i
  {
    if i < q {
      NoMatchBetweenComplete(s, i + 1, q);
    }
  }

  /** One step over a stretch where no match starts. */
  lemma FeaturedGroupsStretchStep(s: string, i: nat, q: nat)
    requires i < q <= |s| && NoMatchBetween(s, i, q)
    ensures FeaturedGroups(s, i) == FeaturedGroups(s, i + 1) && NoMatchBetween(s, i + 1, q)
  {
    FeaturedGroupsSkip(s, i);
  }

  /** `findall` passes over a stretch where no match starts, collecting nothing. */
  lemma {:induction false} FeaturedGroupsSkipStretch(s: string, i: nat, q: nat)
    requires i <= q <= |s| && NoMatchBetween(s, i, q)
    ensures FeaturedGroups(s, i) == FeaturedGroups(s, q)
    decreases q - i
  {
    if i < q {
      FeaturedGroupsStretchStep(s, i, q);
      assert FeaturedGroups(s, i + 1) == FeaturedGroups(s, q) by {
        FeaturedGroupsSkipStretch(s, i + 1, q);
      }
    }
  }

  /** `findall` passes over positions where no match starts, `(` that
      opens no match included, collecting nothing. */
  lemma FeaturedGroupsSkipNoMatch(s: string, i: nat, q: nat)
    requires i <= q <= |s|
    requires forall t :: i <= t < q ==> MatchAt(s, t).None?
    ensures FeaturedGroups(s, i) == FeaturedGroups(s, q)
  {
    NoMatchBetweenComplete(s, i, q);
    FeaturedGroupsSkipStretch(s, i, q);
  }

  /** `findall` returns first the group of the first match `g`, at `q`,
      however many unmatched `(` come before it. */
  lemma FeaturedGroupsFirst(s: string, i: nat, q: nat, g: FeatMatch)
    requires i <= q < |s| && MatchAt(s, q) == Some(g)
    requires forall t :: i <= t < q ==> MatchAt(s, t).None?
    ensures FeaturedGroups(s, i) == [g.group] + FeaturedGroups(s, g.end)
  {
    FeaturedGroupsSkipNoMatch(s, i, q);
    FeaturedGroupsAtMatch(s, q, g);
  }

  /** A title whose first match is `(feat. X)`, `(ft. X)` or `(featuring X)`
      at `i` names `X`, stripped, first. */
  lemma FirstFeaturedName(title: string, i: nat, m: nat, a: nat, j: nat)
    requires i < |title| && title[i] == '('
    requires forall t :: 0 <= t < i ==> MatchAt(title, t).None?
    requires m < |FeatureMarkers| && StartsWithIgnoringCase(title, i + 1, FeatureMarkers[m])
    requires i + 1 + |FeatureMarkers[m]| <= a < j < |title|
    requires AllSpace(title[i + 1 + |FeatureMarkers[m]|..a]) && !IsSpace(title[a])
    requires title[j] == ')' && forall t :: a <= t < j ==> title[t] != ')'
    ensures var names := ExtractFeaturedArtists(title);
      names != [] && names[0] == Strip(title[a..j])
  {
    MatchAtComplete(title, i, m, a, j);
    FeaturedGroupsFirst(title, 0, i, FeatMatch(title[a..j], j + 1));
  }

  /** The only group in "Song (feat. Bob)" is "Bob". */
  lemma FeaturedExampleGroups(title: string)
    requires title == "Song (feat. Bob)"
    ensures FeaturedGroups(title, 0) == ["Bob"]
  {
    assert Lower(title[6..11]) == "feat.";
    assert title[11..12] == " ";
    assert title[12..15] == "Bob";
    assert title[0..5] == "Song ";
    MatchAtComplete(title, 5, 0, 12, 15);
    FeaturedGroupsSkipTo(title, 0, 5);
    FeaturedGroupsAtMatch(title, 5, FeatMatch("Bob", 16));
  }

  /** In "Song (Live) (feat. Bob)" the first `(` opens "Live)", which is no marker. */
  lemma LiveOpensNoMatch(title: string)
    requires title == "Song (Live) (feat. Bob)"
    ensures MatchAt(title, 5).None?
  {
    assert title[5] == '(';
    assert title[6] == 'L';
    assert LowerChar('L') == 'l';
    MarkerStartsWithF(title, 6);
    assert MarkerAt(title, 6).None?;
    assert MatchAt(title, 5) == AfterOpen(title, 6, None);
  }

  /** In "Song (Live) (feat. Bob)" the scan reaches the second `(` with nothing found. */
  lemma ScanPassesLive(title: string)
    requires title == "Song (Live) (feat. Bob)"
    ensures FeaturedGroups(title, 0) == FeaturedGroups(title, 12)
  {
    assert title[0..5] == "Song ";
    assert title[6..12] == "Live) " by {
      assert title[6] == 'L' && title[7] == 'i' && title[8] == 'v' && title[9] == 'e' && title[10] == ')' && title[11] == ' ';
    }
    FeaturedGroupsSkipTo(title, 0, 5);
    LiveOpensNoMatch(title);
    FeaturedGroupsSkip(title, 5);
    FeaturedGroupsSkipTo(title, 6, 12);
  }

  /** In "Song (Live) (feat. Bob)" the second `(` opens "(feat. Bob)". */
  lemma FeatMatchAfterLive(title: string)
    requires title == "Song (Live) (feat. Bob)"
    ensures MatchAt(title, 12) == Some(FeatMatch("Bob", 23))
  {
    assert Lower(title[13..18]) == "feat.";
    assert title[18..19] == " ";
    assert title[19..22] == "Bob";
    MatchAtComplete(title, 12, 0, 19, 22);
  }

  /** "Song (Live) (feat. Bob)": the scan passes the `(` of "(Live)", which
      opens no match, and still finds "Bob". */
  lemma FeaturedAfterUnmatchedGroups(title: string)
    requires title == "Song (Live) (feat. Bob)"
    ensures FeaturedGroups(title, 0) == ["Bob"]
  {
    ScanPassesLive(title);
    FeatMatchAfterLive(title);
    FeaturedGroupsAtMatch(title, 12, FeatMatch("Bob", 23));
  }

  /** "Bob" has no surrounding whitespace to strip. */
  lemma StripKeepsBob()
    ensures Strip("Bob") == "Bob"
  {
    assert StripStart("Bob") == 0;
    assert StripEnd("Bob") == 3;
  }

  /** The title "Song (feat. Bob)" names Bob. */
  lemma FeaturedExample(title: string)
    requires title == "Song (feat. Bob)"
    ensures ExtractFeaturedArtists(title) == ["Bob"]
  {
    var names := ExtractFeaturedArtists(title);
    FeaturedExampleGroups(title);
    assert |names| == 1;
    assert names[0] == Strip("Bob") by {
      FeaturedNamesComeFromGroups(title);
    }
    StripKeepsBob();
  }

  /** "Song (Live) (feat. Bob)" names Bob, as `re.findall` does. */
  lemma FeaturedAfterUnmatched(title: string)
    requires title == "Song (Live) (feat. Bob)"
    ensures ExtractFeaturedArtists(title) == ["Bob"]
  {
    var names := ExtractFeaturedArtists(title);
    FeaturedAfterUnmatchedGroups(title);
    assert |names| == 1;
    assert names[0] == Strip("Bob") by {
      FeaturedNamesComeFromGroups(title);
    }
    StripKeepsBob();
  }

  /** Each name is a non-empty group with its whitespace stripped. */
  lemma FeaturedNamesComeFromGroups(title: string)
    ensures var names := ExtractFeaturedArtists(title);
      forall k :: 0 <= k < |names| ==>
        FeaturedGroups(title, 0)[k] != [] && names[k] == Strip(FeaturedGroups(title, 0)[k])
  {
  }

  /** A title without `(` names nobody. */
  lemma NoParenthesisNoFeatured(title: string)
    requires '(' !in title
    ensures ExtractFeaturedArtists(title) == []
  {
    assert title[0..|title|] == title;
    FeaturedGroupsSkipTo(title, 0, |title|);
  }

  // ---------------------------------------------------------------------
  // Thumbnails
  // ---------------------------------------------------------------------

  /** `x.get('width', 0)` and `x.get('height', 0)`. */
  function Width(t: Thumbnail): int { t.width.GetOr(0) }
  function Height(t: Thumbnail): int { t.height.GetOr(0) }

  /** `ts[k]` is the first entry of maximal width: what `max(ts, key=width)` returns. */
  predicate IsFirstWidest(ts: seq<Thumbnail>, k: int) {
    && 0 <= k < |ts|
    && (forall j :: 0 <= j < |ts| ==> Width(ts[j]) <= Width(ts[k]))
    && (forall j :: 0 <= j < k ==> Width(ts[j]) < Width(ts[k]))
  }

  /** Python's `max` scan: a later entry replaces the best only when strictly wider. */
  function FirstWidestIndex(ts: seq<Thumbnail>): (k: nat)
    requires ts != []
    ensures IsFirstWidest(ts, k)
    decreases |ts|
  {
    if |ts| == 1 then 0
    else
      var k := FirstWidestIndex(ts[..|ts| - 1]);
      if Width(ts[|ts| - 1]) > Width(ts[k]) then |ts| - 1 else k
  }

  /** There is only one first widest entry. */
  lemma FirstWidestUnique(ts: seq<Thumbnail>, k: int, k': int)
    requires IsFirstWidest(ts, k) && IsFirstWidest(ts, k')
    ensures k == k'
  {
    assert Width(ts[k]) <= Width(ts[k']) && Width(ts[k']) <= Width(ts[k]);
  }

  /** `get_best_thumbnail`: `None` for no thumbnails, else the `url` (possibly
      missing) of the first widest entry. */
  function GetBestThumbnail(ts: seq<Thumbnail>): (r: Option<string>)
    ensures ts == [] ==> r == None
    ensures ts != [] ==> exists k | 0 <= k < |ts| :: IsFirstWidest(ts, k) && r == ts[k].url
  {
    if ts == [] then None
    else
      var k := FirstWidestIndex(ts);
      ts[k].url
  }

  /** The sort key `(width, height)`, compared lexicographically. */
  predicate KeyLe(a: Thumbnail, b: Thumbnail) {
    Width(a) < Width(b) || (Width(a) == Width(b) && Height(a) <= Height(b))
  }

  /** `ts[k]` has a maximal key and every later entry has a smaller one:
      the entry a stable sort by the key puts last. */
  predicate IsLastLargest(ts: seq<Thumbnail>, k: int) {
    && 0 <= k < |ts|
    && (forall j :: 0 <= j < |ts| ==> KeyLe(ts[j], ts[k]))
    && (forall j :: k < j < |ts| ==> !KeyLe(ts[k], ts[j]))
  }

  function LastLargestIndex(ts: seq<Thumbnail>): (k: nat)
    requires ts != []
    ensures IsLastLargest(ts, k)
    decreases |ts|
  {
    if |ts| == 1 then 0
    else
      var k := LastLargestIndex(ts[..|ts| - 1]);
      if KeyLe(ts[k], ts[|ts| - 1]) then |ts| - 1 else k
  }

  predicate SortedByKey(s: seq<Thumbnail>) {
    forall i, j :: 0 <= i < j < |s| ==> KeyLe(s[i], s[j])
  }

  /** Inserts `x` into a list sorted by key, after every entry whose key is
      not larger, as a stable sort does with an element that comes later. */
  function InsertStable(x: Thumbnail, s: seq<Thumbnail>): (r: seq<Thumbnail>)
    requires SortedByKey(s)
    ensures multiset(r) == multiset(s) + multiset{x}
    ensures SortedByKey(r)
    ensures |r| == |s| + 1
    ensures r[|r| - 1] == (if s == [] || KeyLe(s[|s| - 1], x) then x else s[|s| - 1])
    decreases |s|
  {
    if s == [] || KeyLe(s[|s| - 1], x) then s + [x]
    else
      var last := s[|s| - 1];
      var init := InsertStable(x, s[..|s| - 1]);
      assert s == s[..|s| - 1] + [last];
      AllKeyLe(init, s[..|s| - 1], x, last);
      init + [last]
  }

  /** A permutation of `s` plus `x` stays below a bound of `s` and `x`. */
  lemma AllKeyLe(r: seq<Thumbnail>, s: seq<Thumbnail>, x: Thumbnail, bound: Thumbnail)
    requires multiset(r) == multiset(s) + multiset{x}
    requires KeyLe(x, bound) && forall j :: 0 <= j < |s| ==> KeyLe(s[j], bound)
    ensures forall i :: 0 <= i < |r| ==> KeyLe(r[i], bound)
  {
    forall i | 0 <= i < |r|
      ensures KeyLe(r[i], bound)
    {
      assert r[i] in multiset(r);
      if r[i] != x {
        assert r[i] in multiset(s);
        var j :| 0 <= j < |s| && s[j] == r[i];
      }
    }
  }

  /** `sorted(ts, key=lambda x: (width, height))`: insertion sort, stable. */
  function StableSort(ts: seq<Thumbnail>): (r: seq<Thumbnail>)
    ensures multiset(r) == multiset(ts) && |r| == |ts|
    ensures SortedByKey(r)
    decreases |ts|
  {
    if ts == [] then []
    else
      assert ts == ts[..|ts| - 1] + [ts[|ts| - 1]];
      InsertStable(ts[|ts| - 1], StableSort(ts[..|ts| - 1]))
  }

  /** The last entry of the sorted list is the last entry of maximal key. */
  lemma {:induction false} StableSortLast(ts: seq<Thumbnail>)
    requires ts != []
    ensures StableSort(ts)[|ts| - 1] == ts[LastLargestIndex(ts)]
    decreases |ts|
  {
    if |ts| > 1 {
      StableSortLast(ts[..|ts| - 1]);
      StableSortLastStep(ts);
    }
  }

  /** Sorting one more entry: it goes last exactly when its key is at
      least that of the entry that was last. */
  lemma StableSortLastStep(ts: seq<Thumbnail>)
    requires |ts| > 1
    requires StableSort(ts[..|ts| - 1])[|ts| - 2] == ts[LastLargestIndex(ts[..|ts| - 1])]
    ensures StableSort(ts)[|ts| - 1] == ts[LastLargestIndex(ts)]
  {
    var init := ts[..|ts| - 1];
    var k, x := LastLargestIndex(init), ts[|ts| - 1];
    assert init[k] == ts[k];
    assert StableSort(ts)[|ts| - 1] == if KeyLe(ts[k], x) then x else ts[k] by {
      assert StableSort(ts) == InsertStable(x, StableSort(init));
    }
    assert LastLargestIndex(ts) == if KeyLe(ts[k], x) then |ts| - 1 else k;
  }

  const NoAlbumArt := "No album art found"

  /** The album-art expression of `process_song`: the sentinel for no
      thumbnails, else the `url` of the last entry of the sorted list; a
      missing `url` raises `KeyError`. */
  function AlbumArt(ts: seq<Thumbnail>): (r: Outcome<string>)
    ensures ts == [] ==> r == Returned(NoAlbumArt)
    ensures ts != [] ==> exists k | 0 <= k < |ts| ::
      (IsLastLargest(ts, k) && r == (if ts[k].url.Some? then Returned(ts[k].url.value) else Raised("'url'")))
  {
    if ts == [] then Returned(NoAlbumArt)
    else
      var last := StableSort(ts)[|ts| - 1];
      StableSortLast(ts);
      assert IsLastLargest(ts, LastLargestIndex(ts));
      match last.url
      case Some(u) => Returned(u)
      case None => Raised("'url'")
  }

  // ---------------------------------------------------------------------
  // process_song
  // ---------------------------------------------------------------------

  /** `[artist['name'] for artist in artists]`; `None` when a name is missing (`KeyError`). */
  function ArtistNames(artists: seq<Artist>): (r: Option<seq<string>>)
    ensures r.Some? <==> forall k :: 0 <= k < |artists| ==> artists[k].name.Some?
    ensures r.Some? ==> |r.value| == |artists|
    ensures r.Some? ==> forall k :: 0 <= k < |artists| ==> r.value[k] == artists[k].name.value
    decreases |artists|
  {
    if artists == [] then Some([])
    else match (artists[0].name, ArtistNames(artists[1..]))
      case (Some(n), Some(rest)) => Some([n] + rest)
      case _ => None
  }

  /** A truthy optional string: present and not empty. */
  predicate Present(s: Option<string>) {
    s.Some? && s.value != []
  }

  /** `process_song`: `None` for a malformed record, a missing or empty title,
      video id or artist list, a video id equal to `mainSongId`, an unwanted
      title, a raising details call or a thumbnail without `url`; otherwise
      the record with its fields copied, the featured names of its title, its
      album art and its audio URL, which may be `None`. */
  function ProcessSong(track: Track, mainSongId: Option<string>, p: Providers): Option<SongInfo>
  {
    match track
    case Malformed(_) => None
    case Track(title, videoId, artistList) =>
      match ArtistNames(artistList)
      case None => None
      case Some(artists) =>
        if !Present(title) || !Present(videoId) || artists == [] then None
        else if Some(videoId.value) == mainSongId || IsUnwantedTitle(title.value) then None
        else
          var featuring := ExtractFeaturedArtists(title.value);
          match p.songThumbnails(videoId.value)
          case Raised(_) => None
          case Returned(thumbnails) =>
            match AlbumArt(thumbnails)
            case Raised(_) => None
            case Returned(art) =>
              Some(SongInfo(title.value, artists, videoId.value, art, p.audioUrl(videoId.value), featuring))
  }

  /** What `process_song` promises: a track is accepted exactly when it is a
      record with a title, a video id and named artists, is not the main
      song, has a wanted title, and its details call and album art succeed
      (the audio lookup never rejects); the rejection cases one by one; and
      for an accepted track its fields, featured names, album art and audio
      URL. */
  lemma ProcessSongContract(track: Track, mainSongId: Option<string>, p: Providers)
    ensures var r := ProcessSong(track, mainSongId, p);
      && (r.Some? <==>
            && track.Track? && Present(track.title) && Present(track.videoId) && track.artists != []
            && ArtistNames(track.artists).Some? && Some(track.videoId.value) != mainSongId
            && !IsUnwantedTitle(track.title.value)
            && p.songThumbnails(track.videoId.value).Returned?
            && AlbumArt(p.songThumbnails(track.videoId.value).value).Returned?)
      && (track.Malformed? ==> r == None)
      && (track.Track? && !(Present(track.title) && Present(track.videoId) && track.artists != []) ==> r == None)
      && (track.Track? && track.videoId.Some? && track.videoId == mainSongId ==> r == None)
      && (track.Track? && track.title.Some? && IsUnwantedTitle(track.title.value) ==> r == None)
      && (r.Some? ==> track.Track? && Some(r.value.title) == track.title && Some(r.value.videoId) == track.videoId)
      && (r.Some? ==> ArtistNames(track.artists) == Some(r.value.artists) && r.value.artists != [])
      && (r.Some? ==> r.value.featuring == ExtractFeaturedArtists(r.value.title))
      && (r.Some? ==> r.value.audioUrl == p.audioUrl(r.value.videoId))
      && (r.Some? ==>
            p.songThumbnails(r.value.videoId).Returned?
            && AlbumArt(p.songThumbnails(r.value.videoId).value) == Returned(r.value.albumArtUrl))
  {
  }

  /** A failed audio lookup does not reject a song: whether a song is
      accepted, and everything but its audio URL, is the same whatever the
      audio provider answers. */
  lemma AudioDoesNotDecideAcceptance(track: Track, mainSongId: Option<string>, p: Providers, audio: string -> Option<string>)
    ensures var q := p.(audioUrl := audio);
      && ProcessSong(track, mainSongId, p).Some? == ProcessSong(track, mainSongId, q).Some?
      && (ProcessSong(track, mainSongId, p).Some? ==>
            ProcessSong(track, mainSongId, q).value
              == ProcessSong(track, mainSongId, p).value.(audioUrl := audio(track.videoId.value)))
  {
  }

  // ---------------------------------------------------------------------
  // The ordered walk over a related-track list
  // ---------------------------------------------------------------------

  /** An accepted track: its 1-based position in the list and its record. */
  datatype Accepted = Accepted(position: nat, song: SongInfo)

  /** The outcome of a walk: what was accepted before it stopped, and the
      message of the exception that stopped it, if any. */
  datatype Walk = Walk(accepted: seq<Accepted>, failure: Option<string>)

  /** `process_song` with `mainId` as the main song id: the per-track
      decision of a walk. */
  function Decide(mainId: string, p: Providers): Track -> Option<SongInfo> {
    t => ProcessSong(t, Some(mainId), p)
  }

  /** The track is not skipped by id and the decision accepts it. */
  predicate Acceptable(t: Track, skipId: string, accept: Track -> Option<SongInfo>) {
    t.Track? && t.videoId != Some(skipId) && accept(t).Some?
  }

  /** The first malformed entry at or after `i`, or `|tracks|`. */
  function StopAt(tracks: seq<Track>, i: nat): (s: nat)
    requires i <= |tracks|
    ensures i <= s <= |tracks|
    ensures s < |tracks| ==> tracks[s].Malformed?
    ensures forall j :: i <= j < s ==> tracks[j].Track?
    decreases |tracks| - i
  {
    if i == |tracks| || tracks[i].Malformed? then i else StopAt(tracks, i + 1)
  }

  /** The loop `for index, track in enumerate(tracks, 1)` from entry `i` on:
      a track whose id is `skipId` is skipped, the others go through the
      decision `accept` (`process_song` with a fixed main song id, see
      `Decide`), and a malformed entry raises and ends the walk with its
      message. */
  function WalkTracks(tracks: seq<Track>, skipId: string, accept: Track -> Option<SongInfo>, i: nat): (w: Walk)
    requires i <= |tracks|
    ensures w.failure == (if StopAt(tracks, i) < |tracks| then Some(tracks[StopAt(tracks, i)].error) else None)
    ensures |w.accepted| <= StopAt(tracks, i) - i
    decreases |tracks| - i
  {
    if i == |tracks| then Walk([], None)
    else match tracks[i]
      case Malformed(e) => Walk([], Some(e))
      case Track(_, videoId, _) =>
        var rest := WalkTracks(tracks, skipId, accept, i + 1);
        if videoId == Some(skipId) then rest
        else match accept(tracks[i])
          case None => rest
          case Some(song) => Walk([Accepted(i + 1, song)] + rest.accepted, rest.failure)
  }

  /** Positions of accepted entries lie after `i` and before the first
      malformed entry, and strictly increase. */
  lemma {:induction false} WalkPositions(tracks: seq<Track>, skipId: string, accept: Track -> Option<SongInfo>, i: nat)
    requires i <= |tracks|
    ensures var w := WalkTracks(tracks, skipId, accept, i);
      && (forall k :: 0 <= k < |w.accepted| ==> i < w.accepted[k].position <= StopAt(tracks, i))
      && (forall k, l :: 0 <= k < l < |w.accepted| ==> w.accepted[k].position < w.accepted[l].position)
    decreases |tracks| - i
  {
    var w := WalkTracks(tracks, skipId, accept, i);
    if i == |tracks| || tracks[i].Malformed? {
      assert w.accepted == [];
    } else {
      WalkPositions(tracks, skipId, accept, i + 1);
      WalkStep(tracks, skipId, accept, i);
      var rest := WalkTracks(tracks, skipId, accept, i + 1);
      assert StopAt(tracks, i) == StopAt(tracks, i + 1);
      if Acceptable(tracks[i], skipId, accept) {
        forall k | 0 < k < |w.accepted| ensures w.accepted[k] == rest.accepted[k - 1] {
        }
      }
    }
  }

  /** The `k`-th accepted entry is an acceptable track and carries the
      record the decision built for it. */
  lemma {:induction false} WalkRecord(tracks: seq<Track>, skipId: string, accept: Track -> Option<SongInfo>, i: nat, k: nat)
    requires i <= |tracks| && k < |WalkTracks(tracks, skipId, accept, i).accepted|
    ensures var a := WalkTracks(tracks, skipId, accept, i).accepted[k];
      && 0 < a.position <= |tracks|
      && Acceptable(tracks[a.position - 1], skipId, accept)
      && accept(tracks[a.position - 1]) == Some(a.song)
    decreases |tracks| - i
  {
    var w := WalkTracks(tracks, skipId, accept, i);
    assert i < |tracks| && tracks[i].Track?;
    WalkStep(tracks, skipId, accept, i);
    var rest := WalkTracks(tracks, skipId, accept, i + 1);
    if !Acceptable(tracks[i], skipId, accept) {
      WalkRecord(tracks, skipId, accept, i + 1, k);
    } else if k > 0 {
      assert w.accepted[k] == rest.accepted[k - 1];
      WalkRecord(tracks, skipId, accept, i + 1, k - 1);
    }
  }

  /** Every acceptable track before the first malformed entry is accepted. */
  lemma {:induction false} WalkComplete(tracks: seq<Track>, skipId: string, accept: Track -> Option<SongInfo>, i: nat, q: nat)
    requires i <= q < |tracks| && q < StopAt(tracks, i) && Acceptable(tracks[q], skipId, accept)
    ensures exists a | a in WalkTracks(tracks, skipId, accept, i).accepted :: a.position == q + 1
    decreases |tracks| - i
  {
    var w := WalkTracks(tracks, skipId, accept, i);
    if q == i {
      assert w.accepted[0].position == q + 1;
    } else {
      WalkComplete(tracks, skipId, accept, i + 1, q);
      var rest := WalkTracks(tracks, skipId, accept, i + 1);
      var a :| a in rest.accepted && a.position == q + 1;
      assert a in w.accepted;
    }
  }

  /** One step of the walk over a well-formed entry. */
  lemma WalkStep(tracks: seq<Track>, skipId: string, accept: Track -> Option<SongInfo>, i: nat)
    requires i < |tracks| && tracks[i].Track?
    ensures var here := WalkTracks(tracks, skipId, accept, i);
      var next := WalkTracks(tracks, skipId, accept, i + 1);
      && here.failure == next.failure
      && (!Acceptable(tracks[i], skipId, accept) ==> here.accepted == next.accepted)
      && (Acceptable(tracks[i], skipId, accept) ==>
            here.accepted == [Accepted(i + 1, accept(tracks[i]).value)] + next.accepted)
      && (Acceptable(tracks[i], skipId, accept) ==>
            Songs(here.accepted) == [accept(tracks[i]).value] + Songs(next.accepted))
  {
    var here := WalkTracks(tracks, skipId, accept, i);
    var next := WalkTracks(tracks, skipId, accept, i + 1);
    if Acceptable(tracks[i], skipId, accept) {
      assert here.accepted[1..] == next.accepted;
    }
  }

  /** The records of the accepted entries, in order. */
  function Songs(accs: seq<Accepted>): seq<SongInfo> {
    seq(|accs|, k requires 0 <= k < |accs| => accs[k].song)
  }

  /** `related_data.get('tracks', [])[:n]`: Python slicing, so a negative
      `n` drops that many entries from the end. */
  function TakePrefix(tracks: seq<Track>, n: int): (r: seq<Track>)
    ensures |r| <= |tracks| && r == tracks[..|r|]
    ensures n >= 0 ==> |r| == if n <= |tracks| then n else |tracks|
    ensures n < 0 ==> |r| == if |tracks| + n >= 0 then |tracks| + n else 0
  {
    if n >= 0 then (if n <= |tracks| then tracks[..n] else tracks)
    else if |tracks| + n >= 0 then tracks[..|tracks| + n]
    else []
  }

  /** What `fetch_related_songs` returns: `[]` when the playlist call raises
      or the walk meets a malformed entry, otherwise the accepted records. */
  function FetchedSongs(videoId: string, mainSongId: string, maxResults: int, p: Providers): seq<SongInfo> {
    match p.watchPlaylist(videoId)
    case Raised(_) => []
    case Returned(tracks) =>
      var w := WalkTracks(TakePrefix(tracks, maxResults), mainSongId, Decide(videoId, p), 0);
      if w.failure.Some? then [] else Songs(w.accepted)
  }

  /** `fetch_related_songs`: the watch-playlist call, the first
      `maxResults` tracks, then the for-loop with `process_song` as the
      decision for each track. */
  method FetchRelatedSongs(videoId: string, mainSongId: string, maxResults: int, p: Providers)
    returns (songs: seq<SongInfo>)
    ensures songs == FetchedSongs(videoId, mainSongId, maxResults, p)
  {
    var related := p.watchPlaylist(videoId);
    if related.Raised? {
      return [];
    }
    var tracks := TakePrefix(related.value, maxResults);
    songs := CollectAccepted(tracks, mainSongId, Decide(videoId, p));
  }

  /** The for-loop of `fetch_related_songs`: append each record `accept`
      returns for a track not skipped by id; a malformed entry raises and
      the whole call returns `[]`. */
  method CollectAccepted(tracks: seq<Track>, skipId: string, accept: Track -> Option<SongInfo>)
    returns (songs: seq<SongInfo>)
    ensures var w := WalkTracks(tracks, skipId, accept, 0);
      songs == if w.failure.Some? then [] else Songs(w.accepted)
  {
    ghost var all := WalkTracks(tracks, skipId, accept, 0);
    var valid: seq<SongInfo> := [];
    var i := 0;
    while i < |tracks|
      invariant 0 <= i <= |tracks|
      invariant WalkTracks(tracks, skipId, accept, i).failure == all.failure
      invariant valid + Songs(WalkTracks(tracks, skipId, accept, i).accepted) == Songs(all.accepted)
    {
      var track := tracks[i];
      if track.Malformed? {
        return [];
      }
      WalkStep(tracks, skipId, accept, i);
      ghost var next := Songs(WalkTracks(tracks, skipId, accept, i + 1).accepted);
      var song := ConsiderTrack(track, skipId, accept);
      if song.Some? {
        AppendAssoc(valid, [song.value], next);
        valid := valid + [song.value];
      }
      i := i + 1;
    }
    assert valid + [] == valid;
    songs := valid;
  }

  /** The body of the loop of `fetch_related_songs` for one well-formed
      entry: skip the main song, otherwise keep what the decision returns. */
  method ConsiderTrack(track: Track, skipId: string, accept: Track -> Option<SongInfo>)
    returns (song: Option<SongInfo>)
    requires track.Track?
    ensures song.Some? <==> Acceptable(track, skipId, accept)
    ensures song.Some? ==> song == accept(track)
  {
    if track.videoId == Some(skipId) {
      return None;
    }
    song := accept(track);
  }

  /** Any exception yields `[]`: a raising playlist call, or a malformed
      entry anywhere among the first `maxResults`. */
  lemma FetchFailureGivesNothing(videoId: string, mainSongId: string, maxResults: int, p: Providers, j: nat)
    requires p.watchPlaylist(videoId).Raised?
      || (j < |TakePrefix(p.watchPlaylist(videoId).value, maxResults)|
          && TakePrefix(p.watchPlaylist(videoId).value, maxResults)[j].Malformed?)
    ensures FetchedSongs(videoId, mainSongId, maxResults, p) == []
  {
    if p.watchPlaylist(videoId).Returned? {
      var t := TakePrefix(p.watchPlaylist(videoId).value, maxResults);
      assert StopAt(t, 0) <= j;
    }
  }

  /** The result of `fetch_related_songs` is the in-order selection of
      acceptable tracks among the first `maxResults`: never longer than that
      list, never the main song or the playlist's own video, never an
      unwanted title. */
  lemma FetchedSongsSelection(videoId: string, mainSongId: string, maxResults: int, p: Providers)
    ensures var songs := FetchedSongs(videoId, mainSongId, maxResults, p);
      && (maxResults >= 0 ==> |songs| <= maxResults)
      && (forall s | s in songs :: s.videoId != mainSongId && s.videoId != videoId && !IsUnwantedTitle(s.title))
  {
    var songs := FetchedSongs(videoId, mainSongId, maxResults, p);
    match p.watchPlaylist(videoId)
    case Raised(_) =>
    case Returned(tracks) =>
      var t := TakePrefix(tracks, maxResults);
      var w := WalkTracks(t, mainSongId, Decide(videoId, p), 0);
      if w.failure.None? {
        forall s | s in songs
          ensures s.videoId != mainSongId && s.videoId != videoId && !IsUnwantedTitle(s.title)
        {
          var k :| 0 <= k < |songs| && songs[k] == s;
          WalkRecord(t, mainSongId, Decide(videoId, p), 0, k);
          ProcessSongContract(t[w.accepted[k].position - 1], Some(videoId), p);
        }
      }
  }
}
