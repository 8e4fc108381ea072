/** The video card and the video dialog (`client/src/components/video-card.tsx`,
    `client/src/components/video-modal.tsx`): the badges guessed from the title, the bookmark
    toggle and the embedded player's address. Both components carry identical copies of the two
    title classifiers; they are modelled once. */
module VideoComponents {
  import opened Strings
  import opened Lists
  import opened VideoId
  import YoutubeApi
  import Storage

  datatype Video = Video(
    id: string, title: string, description: string, thumbnail: string, channel: string,
    publishedAt: string, duration: string, viewCount: string)

  // ---------------------------------------------------------------- title classifiers

  /** The subjects looked for, in the order they are tried. */
  const Subjects: seq<string> :=
    ["Mathematics", "Math", "Science", "Physics", "Chemistry", "History", "Programming", "Biology"]

  /** `title.toLowerCase().includes(subject.toLowerCase())` */
  predicate Mentions(title: string, subject: string)
  {
    Contains(ToLower(title), ToLower(subject))
  }

  /** `getSubjectFromTitle`: the first listed subject the title mentions, else `"Education"`. */
  function SubjectFromTitle(title: string): (r: string)
    ensures r == "Education" <==> forall k | 0 <= k < |Subjects| :: !Mentions(title, Subjects[k])
    ensures r != "Education" ==>
              exists k | 0 <= k < |Subjects| :: Subjects[k] == r && Mentions(title, r) &&
                forall j | 0 <= j < k :: !Mentions(title, Subjects[j])
  {
    SubjectOfLowered(ToLower(title))
  }

  /** The subject search on the already lower-cased title. */
  function SubjectOfLowered(lowered: string): (r: string)
    ensures r == "Education" <==> forall k | 0 <= k < |Subjects| :: !Contains(lowered, ToLower(Subjects[k]))
    ensures r != "Education" ==>
              exists k | 0 <= k < |Subjects| :: Subjects[k] == r && Contains(lowered, ToLower(r)) &&
                forall j | 0 <= j < k :: !Contains(lowered, ToLower(Subjects[j]))
  {
    var p := s => Contains(lowered, ToLower(s));
    assert "Education" !in Subjects;
    match FirstIndex(Subjects, p)
    case None => "Education"
    case Some(k) =>
      assert Subjects[k] in Subjects;
      Subjects[k]
  }

  /** The result is always a listed subject or the default. */
  lemma SubjectIsListed(title: string)
    ensures SubjectFromTitle(title) in Subjects + ["Education"]
  {
    var r := SubjectFromTitle(title);
    if r != "Education" {
      var k :| 0 <= k < |Subjects| && Subjects[k] == r;
      assert r == (Subjects + ["Education"])[k];
    }
  }

  /** List order breaks ties, not title order: any title mentioning "mathematics" gets
      "Mathematics", even "Physics and Mathematics". */
  lemma MathematicsWins(title: string)
    requires Contains(ToLower(title), "mathematics")
    ensures SubjectFromTitle(title) == "Mathematics"
  {
    assert ToLower("Mathematics") == "mathematics";
    assert Mentions(title, Subjects[0]);
  }

  /** A title mentioning "math" is classed as one of the two mathematics entries. */
  lemma MathIsMathematicsOrMath(title: string)
    requires Contains(ToLower(title), "math")
    ensures SubjectFromTitle(title) in {"Mathematics", "Math"}
  {
    assert ToLower("Math") == "math";
    assert Mentions(title, Subjects[1]);
    var k := FirstIndex(Subjects, s => Contains(ToLower(title), ToLower(s))).value;
    assert k <= 1;
  }

  /** `getLevelFromTitle`: "beginner" or "basic" is checked before "advanced". */
  function LevelFromTitle(title: string): (r: string)
    ensures r in {"Beginner", "Advanced", "Intermediate"}
    ensures r == "Beginner" <==> Contains(ToLower(title), "beginner") || Contains(ToLower(title), "basic")
    ensures r == "Advanced" <==>
              !Contains(ToLower(title), "beginner") && !Contains(ToLower(title), "basic") &&
              Contains(ToLower(title), "advanced")
  {
    var t := ToLower(title);
    if Contains(t, "beginner") || Contains(t, "basic") then "Beginner"
    else if Contains(t, "advanced") then "Advanced"
    else "Intermediate"
  }

  /** Neither classifier cares about the letter case of the title. */
  lemma ClassifiersIgnoreCase(title: string)
    ensures SubjectFromTitle(ToLower(title)) == SubjectFromTitle(title)
    ensures LevelFromTitle(ToLower(title)) == LevelFromTitle(title)
  {
    ToLowerIdempotent(title);
  }

  // ---------------------------------------------------------------- the bookmark toggle

  /** What pressing the bookmark button sends. */
  datatype BookmarkRequest =
    | DeleteBookmark(videoId: string)               // DELETE /api/bookmarks/:videoId
    | PostBookmark(bookmark: Storage.BookmarkFields) // POST /api/bookmarks

  /** The status query's answer: `None` while it has not arrived. */
  predicate ShownBookmarked(status: Option<bool>)
  {
    status == Some(true)
  }

  /** The card's toggle: the added bookmark carries the formatted duration. */
  function CardToggle(video: Video, status: Option<bool>): (r: BookmarkRequest)
    ensures r.DeleteBookmark? <==> ShownBookmarked(status)
    ensures r.DeleteBookmark? ==> r.videoId == video.id
    ensures r.PostBookmark? ==>
              r.bookmark.videoId == video.id && r.bookmark.title == video.title &&
              r.bookmark.duration == YoutubeApi.FormatDuration(video.duration)
  {
    if ShownBookmarked(status) then DeleteBookmark(video.id)
    else PostBookmark(Storage.BookmarkFields(video.id, video.title, video.channel,
                                             YoutubeApi.FormatDuration(video.duration), video.thumbnail))
  }

  /** The dialog's toggle: the same, except that the raw ISO 8601 duration is stored. */
  function ModalToggle(video: Video, status: Option<bool>): (r: BookmarkRequest)
    ensures r.DeleteBookmark? <==> ShownBookmarked(status)
    ensures r.PostBookmark? ==> r.bookmark.videoId == video.id && r.bookmark.duration == video.duration
  {
    if ShownBookmarked(status) then DeleteBookmark(video.id)
    else PostBookmark(Storage.BookmarkFields(video.id, video.title, video.channel, video.duration, video.thumbnail))
  }

  /** The two toggles send the same request except for the stored duration. */
  lemma TogglesDifferOnlyInDuration(video: Video, status: Option<bool>)
    ensures CardToggle(video, status).DeleteBookmark? ==> CardToggle(video, status) == ModalToggle(video, status)
    ensures CardToggle(video, status).PostBookmark? ==>
              CardToggle(video, status).bookmark ==
              ModalToggle(video, status).bookmark.(duration := YoutubeApi.FormatDuration(video.duration))
  {
  }

  /** The bookmark table after the request succeeds, as `MemStorage` applies it. */
  function Apply(t: seq<Storage.Row<Storage.BookmarkFields>>, nextId: nat, userId: int, req: BookmarkRequest)
    : (r: seq<Storage.Row<Storage.BookmarkFields>>)
    ensures req.PostBookmark? ==> r == t + [Storage.Row(nextId, userId, req.bookmark)]
    ensures req.DeleteBookmark? ==> r == Storage.RemoveFirst(t, userId, req.videoId)
  {
    match req
    case DeleteBookmark(v) => Storage.RemoveFirst(t, userId, v)
    case PostBookmark(b) => t + [Storage.Row(nextId, userId, b)]
  }

  /** With a status that reflects the table and at most one bookmark per video, a toggle flips
      whether the video is bookmarked. */
  lemma ToggleFlips(t: seq<Storage.Row<Storage.BookmarkFields>>, nextId: nat, userId: int, video: Video)
    requires forall i, j | 0 <= i < |t| && 0 <= j < |t| &&
               Storage.Matches(userId, video.id)(t[i]) && Storage.Matches(userId, video.id)(t[j]) :: i == j
    ensures var status := Some(Storage.Bookmarked(t, userId, video.id));
      Storage.Bookmarked(Apply(t, nextId, userId, CardToggle(video, status)), userId, video.id) ==
      !Storage.Bookmarked(t, userId, video.id)
  {
    var status := Some(Storage.Bookmarked(t, userId, video.id));
    var after := Apply(t, nextId, userId, CardToggle(video, status));
    if Storage.Bookmarked(t, userId, video.id) {
      var i :| 0 <= i < |t| && Storage.Matches(userId, video.id)(t[i]);
      Storage.SingleMatchUnbookmarks(t, userId, video.id, i);
    } else {
      assert Storage.Matches(userId, video.id)(after[|t|]);
    }
  }

  // ---------------------------------------------------------------- the player

  const EmbedPrefix := "https://www.youtube.com/embed/"
  const EmbedParameters := "rel=0&modestbranding=1&showinfo=0&fs=1&controls=1"
  const EmbedQuery := "?" + EmbedParameters

  /** `embedUrl` */
  function EmbedUrl(id: string): (r: string)
    ensures |r| == |EmbedPrefix| + |id| + |EmbedQuery|
    ensures r[..|EmbedPrefix|] == EmbedPrefix && r[|EmbedPrefix|..|EmbedPrefix| + |id|] == id
    ensures r[|EmbedPrefix| + |id|..] == EmbedQuery
  {
    EmbedPrefix + id + EmbedQuery
  }

  /** The player's address leads back to the video: extracting an ID from it gives the ID it
      was built from, in either regular-expression dialect. */
  lemma EmbedUrlRoundTrip(d: Dialect, id: string)
    requires IsVideoId(id)
    ensures ExtractVideoId(d, EmbedUrl(id)) == Extracted(id)
  {
    var s := EmbedUrl(id);
    forall p | 0 <= p < 12
      ensures MatchAt(ShortForms, d, s, p).None?
    {
      NoMatchBeforeHost(d, id, p);
    }
    EmbedMatchesAtHost(d, id);
    SearchFindsFirst(ShortForms, d, s, 0, 12);
    FirstMatchingPatternWins(d, s, 0);
  }

  /** Within "https://www." there is no `y`, so no alternative of the first pattern starts there. */
  lemma NoMatchBeforeHost(d: Dialect, id: string, p: nat)
    requires p < 12
    ensures MatchAt(ShortForms, d, EmbedUrl(id), p).None?
  {
    var s := EmbedUrl(id);
    assert s[p] == EmbedPrefix[p];
    assert EmbedPrefix[p] != 'y';
    assert !OccursAt(s, ShortPrefixes[0], p) by { assert ShortPrefixes[0][0] == 'y'; }
    assert !OccursAt(s, ShortPrefixes[1], p) by { assert ShortPrefixes[1][0] == 'y'; }
    assert !OccursAt(s, ShortPrefixes[2], p) by { assert ShortPrefixes[2][0] == 'y'; }
  }

  /** At the host name the `youtube.com/embed/` alternative matches and captures the ID, which
      stops at the `?` of the query. */
  lemma EmbedMatchesAtHost(d: Dialect, id: string)
    requires IsVideoId(id)
    ensures MatchAt(ShortForms, d, EmbedUrl(id), 12) == Some(id)
  {
    var s := EmbedUrl(id);
    assert s[12..30] == EmbedPrefix[12..30] == ShortPrefixes[2];
    assert !OccursAt(s, ShortPrefixes[0], 12) by { assert s[24] == EmbedPrefix[24] != ShortPrefixes[0][12]; }
    assert !OccursAt(s, ShortPrefixes[1], 12) by { assert s[17] == EmbedPrefix[17] != ShortPrefixes[1][5]; }
    forall k | 30 <= k < 41
      ensures IsCaptureChar(s[k])
    {
      assert s[k] == id[k - 30];
    }
    assert s[41] == EmbedQuery[0];
    assert EmbedQuery[0] == '?';
    CaptureRunStops(s, 30, 41);
  }

  lemma {:induction false} CaptureRunStops(s: string, i: nat, j: nat)
    requires i <= j < |s|
    requires forall k | i <= k < j :: IsCaptureChar(s[k])
    requires !IsCaptureChar(s[j])
    ensures CaptureRun(s, i) == j - i
    decreases j - i
  {
    if i < j {
      CaptureRunStops(s, i + 1, j);
    }
  }

  /** The leftmost position where a pattern matches is the one the search reports. */
  lemma SearchFindsFirst(pat: Pattern, d: Dialect, s: string, from: nat, q: nat)
    requires from <= q <= |s|
    requires forall p | from <= p < q :: MatchAt(pat, d, s, p).None?
    requires MatchAt(pat, d, s, q).Some?
    ensures Search(pat, d, s, from) == Some(Found(q, MatchAt(pat, d, s, q).value))
  {
    var f := Matcher(pat, d, s);
    forall p | from <= p < q ensures f(p).None? {
      assert MatchAt(pat, d, s, p).None?;
    }
    assert f(q) == MatchAt(pat, d, s, q);
    LeftmostMatchFinds(f, |s|, from, q);
  }
}
