# FocusTube core, modelled in Dafny

FocusTube is a study companion built around YouTube videos. A React client lets a learner do these things:

- search videos;
- bookmark videos;
- watch a video in an embedded player;
- run a Pomodoro study timer;
- keep notes, tasks, flashcards and a weekly schedule;
- paste a video URL to obtain a transcript summary and a quiz.

An Express server keeps the per-user data in an in-memory store. It also answers transcript searches. Two Flask services process transcripts: `python_backend/app.py` fetches real ones, and `flask_backend.py` returns canned ones.

This project models the logic of that system:

- **Video IDs.** Video-ID extraction from URLs. One definition covers both regular-expression dialects, JavaScript and Python.
- **Transcripts.** Transcript clean-up, and the two keyword-search rules with their ranking.
- **Flask routes.** Validation and error replies of the Flask routes.
- **Display helpers.** Duration, view-count and badge helpers.
- **In-memory store.** It has seven tables and per-table id counters.
- **Client state.** The state machines of the study timer, the two quiz players and the flashcard study mode.
- **Pages.** The filters and forms of the notes, tasks and schedule pages.
- **Analytics panel.** The minutes display of the learning analytics panel.
- **Bookmarks and player.** The bookmark toggle and the embedded player of the video card and the video dialog.

The style of each part follows the source:

- Pure helpers are Dafny functions with lemmas.
- The store and the stateful components are classes whose methods update their fields.
- The in-place `sort` of a schedule column is an insertion sort over an array.

Modules, one per source file or component:

| module | file |
|---|---|
| `VideoId` | `extractVideoId` / `extract_video_id` |
| `TranscriptSearch` | search in the server and the Python services |
| `PythonBackend` | `python_backend/app.py` |
| `FlaskBackend` | `flask_backend.py` |
| `YoutubeApi` | `client/src/lib/youtube-api.ts` |
| `Storage` | `server/storage.ts` |
| `StudyTimer` | `client/src/components/study-timer.tsx` |
| `QuizAnswers` | the answer sheet shared by both quizzes |
| `TranscriptAiProcessor` | `client/src/components/transcript-ai-processor.tsx` |
| `AiVideoDetails` | `client/src/components/ai-video-details.tsx` |
| `Flashcards` | `client/src/pages/flashcards.tsx` |
| `Tasks` | `client/src/pages/tasks.tsx` |
| `Notes` | `client/src/pages/notes.tsx` |
| `Schedule` | `client/src/pages/schedule.tsx` |
| `LearningAnalytics` | `client/src/components/ai-learning-analytics.tsx` |
| `VideoComponents` | `client/src/components/video-card.tsx` and `video-modal.tsx` |

Two modules hold shared string and sequence helpers: `Strings` (ASCII lower-casing, substrings, split/join, trimming, decimal numbers) and `Lists` (filtering, subsequences).

## Model

| member | source | states |
|---|---|---|
| VideoId.MatchAt | server/transcript-service.ts:35-38 | a pattern matching at a position yields a non-empty capture of `[^&\n?#]` characters that occurs in the URL |
| VideoId.QueryAt | server/transcript-service.ts:38 | the third pattern's `v=` followed by a capture character: `v=` occurs at that index |
| VideoId.IsBareId | server/transcript-service.ts:46 | every 11-character ID passes the fallback; in JavaScript exactly those pass, while Python's `re.match` with `$` (python_backend/app.py:30) also lets a final newline through |
| VideoId.Search | server/transcript-service.ts:42 | a match reported by `url.match(pattern)` starts at or after the search start, and the pattern matches there with the reported capture |
| VideoId.SearchIsLeftmost | server/transcript-service.ts:42 | the reported match is the leftmost: no earlier position matches |
| VideoId.SearchFailsEverywhere | server/transcript-service.ts:42-43 | when the search fails, the pattern matches at no position, so the next pattern is tried |
| VideoId.LastQueryAtIsLast | server/transcript-service.ts:38 | the greedy `.*` of the third pattern settles on the last `v=` followed by a capture character: none lies after it |
| VideoId.NoLastQuery | server/transcript-service.ts:38 | when the third pattern finds no `v=` after `watch?`, there is no `v=` followed by a capture character anywhere in the reach of `.*` |
| VideoId.FirstPatternMatch | server/transcript-service.ts:41-44 | a capture is returned exactly when some remaining pattern matches; the capture is non-empty, free of `&?#` and newline, and occurs in the URL |
| VideoId.ExtractVideoId | server/transcript-service.ts:34-51 | an extracted ID is a non-empty substring of the URL; the error is raised exactly when no pattern matches and the input is not a bare ID; its message is the fixed one |
| VideoId.FirstMatchingPatternWins | server/transcript-service.ts:41-44 | when patterns are tried in order, the first pattern that matches anywhere decides the ID |
| VideoId.NoDotSearchesFail | server/transcript-service.ts:35-39 | every pattern needs a literal dot, so text without one matches none of them |
| VideoId.BareIdIsFixedPoint | server/transcript-service.ts:46-48 | an eleven-character ID comes back unchanged, so extraction is idempotent on IDs |
| VideoId.TrailingNewlineOnlyPython | python_backend/app.py:30-31 | Python's `$` accepts a ten-character ID followed by a newline and returns it with the newline; the JavaScript check rejects it |
| VideoId.GarbageIsRejected | server/transcript-service.ts:50 | input with no dot and not eleven characters long raises the fixed error |
| VideoId.ShortLinkYieldsId | server/transcript-service.ts:36 | a `youtu.be/` link yields exactly the ID it carries |
| VideoId.DialectsAgree | python_backend/app.py:16-33 | the JavaScript and Python copies agree on every input without a trailing newline or a carriage-return or Unicode line terminator |
| Strings.Trim | server/transcript-service.ts:258 | `trim()` / `strip()` cuts only whitespace, and all of it, from both ends: what is kept starts and ends with a non-space |
| Strings.TrimEmptyIffBlank | python_backend/app.py:274 | a text trims to nothing exactly when it is all whitespace |
| Strings.SplitOn | server/transcript-service.ts:262 | JavaScript's `split` with a string separator: at least one piece for a non-empty separator, one piece per character for an empty one |
| Strings.SplitOnCount | server/transcript-service.ts:262 | splitting at a non-empty separator gives one piece more than there are non-overlapping occurrences, which is what Python's `count` (python_backend/app.py:278) returns |
| Strings.JoinSplitOn | server/transcript-service.ts:262 | joining the pieces with the separator gives the text back |
| Strings.CountPositiveIffContains | python_backend/app.py:270-278 | the occurrence count is positive exactly when the text contains the query |
| TranscriptSearch.IsHit | server/transcript-service.ts:254 | the hit test of each implementation (any query word on the server, the whole query at python_backend/app.py:270), with the empty query matching every sentence |
| TranscriptSearch.Sentences | server/transcript-service.ts:249 | `split('.')` gives at least one piece, none containing a '.', and joined with '.' the pieces give the transcript back |
| TranscriptSearch.Score | server/transcript-service.ts:262 | an empty query scores length − 1 on the server (`split("")` gives one piece per character) and length + 1 in Python (`count("")`) |
| TranscriptSearch.ScoreCountsOccurrences | python_backend/app.py:278 | for a non-empty query the server's `split(query).length - 1` and Python's `count(query)` both equal the number of non-overlapping occurrences, positive exactly when the sentence contains the query |
| TranscriptSearch.Context | server/transcript-service.ts:256-258 | the context is the join of the sentence before, the sentence and the one after with ". ", trimmed: only whitespace is cut from either end, and what is kept starts and ends with a non-space |
| TranscriptSearch.HitsUpTo | server/transcript-service.ts:252-265 | at most one hit per sentence |
| TranscriptSearch.NoHitsIffNoMatch | server/transcript-service.ts:252-265 | no hit at all is collected exactly when no sentence matches |
| TranscriptSearch.AllHits | server/transcript-service.ts:249-265 | the hits of the '.'-separated sentences, no more than there are sentences, none exactly when nothing matches |
| TranscriptSearch.Ranked | server/transcript-service.ts:268-269 | the ranking is a permutation of the hits, descending by score, keeping sentence order among equal scores |
| TranscriptSearch.Insert | server/transcript-service.ts:269 | the insertion step of the stable sort adds exactly one element; where it goes is stated by InsertPermutes, InsertDescending and InsertStable |
| TranscriptSearch.InsertPermutes | server/transcript-service.ts:268-269 | insertion adds exactly the inserted hit to the multiset and loses none |
| TranscriptSearch.SortByRelevance | server/transcript-service.ts:268-269 | sorting is a permutation of the hits |
| TranscriptSearch.InsertDescending | server/transcript-service.ts:269 | inserting into a descending list keeps it descending |
| TranscriptSearch.SortDescending | server/transcript-service.ts:269 | the sorted hits are in non-increasing score order |
| TranscriptSearch.InsertStable | python_backend/app.py:282 | inserting keeps the relative order of the hits of every score |
| TranscriptSearch.SortStable | python_backend/app.py:282 | the sort is stable: hits of equal score keep their sentence order |
| TranscriptSearch.TopResults | server/transcript-service.ts:270 | at most five results, which are a prefix of the sorted list |
| TranscriptSearch.Search | python_backend/app.py:266-289 | the loop returns the ranked top five, which are descending, and the total number of hits |
| TranscriptSearch.HitsSound | server/transcript-service.ts:252-265 | every hit is the context of a matching sentence |
| TranscriptSearch.HitsComplete | server/transcript-service.ts:252-265 | every matching sentence contributes its context |
| TranscriptSearch.ResultsAreMatchingContexts | server/transcript-service.ts:248-271 | each returned result is the context of a matching sentence |
| TranscriptSearch.TopResultsAreBest | server/transcript-service.ts:268-270 | nothing left out of the top five scores higher than a returned result |
| TranscriptSearch.WholeQueryHitsScore | python_backend/app.py:270-278 | in Python every hit of a non-empty query scores at least one |
| TranscriptSearch.AnyWordHitMayScoreZero | server/transcript-service.ts:254-262 | on the server a sentence can match one word of the query yet score zero |
| TranscriptSearch.WholeQueryHitIsAnyWordHit | server/transcript-service.ts:254 | whatever the Python rule matches, the server rule matches too |
| TranscriptSearch.MatchersAgreeOnOneWord | python_backend/app.py:270 | for a one-word query both rules give the same hit list |
| TranscriptSearch.EmptyQueryMatchesAll | server/transcript-service.ts:254 | an empty query matches every sentence under both rules |
| PythonBackend.CloseIndex | python_backend/app.py:44 | the non-greedy `\[.*?\]` stops at the first `]`, with no newline before it |
| PythonBackend.RemoveAnnotations | python_backend/app.py:44 | removing annotations never lengthens the text |
| PythonBackend.RemovalLeavesNoAnnotation | python_backend/app.py:44 | after removal no `[` is followed by a `]` on the same line |
| PythonBackend.RemovalIdentity | python_backend/app.py:44 | text without an annotation is left unchanged |
| PythonBackend.RemoveAnnotationsIdempotent | python_backend/app.py:44 | removing annotations twice removes nothing more |
| PythonBackend.RemovalKeepsNewlines | python_backend/app.py:44 | every newline survives the removal |
| PythonBackend.CollapseWhitespace | python_backend/app.py:45 | collapsing never lengthens the text and keeps whether it starts with whitespace |
| PythonBackend.DropSpaceRun | python_backend/app.py:45 | a `\s+` run at the front extends exactly to the first non-space character |
| PythonBackend.DropSpacesAppend | python_backend/app.py:45 | text appended after a non-space does not change where the leading run ends |
| PythonBackend.CollapseRunStep | python_backend/app.py:45 | a leading whitespace run becomes one space followed by the collapse of what comes after the run, whatever text follows |
| PythonBackend.CollapseCharStep | python_backend/app.py:45 | a leading non-space character is kept in front of the collapse of the rest, whatever text follows |
| PythonBackend.CollapseAppend | python_backend/app.py:45 | cutting just after a non-space splits the collapse in two: no whitespace run straddles the cut |
| PythonBackend.CollapseSpaceRun | python_backend/app.py:45 | a whole whitespace run in front of a non-space (or the end) becomes exactly one space, in its place |
| PythonBackend.CollapseWord | python_backend/app.py:45 | text without whitespace comes through unchanged |
| PythonBackend.CollapseWordGap | python_backend/app.py:45 | two words with any whitespace run between them come out joined by exactly one space |
| PythonBackend.CollapseKeepsLast | python_backend/app.py:45 | a final non-space character stays last |
| PythonBackend.TrimCollapsed | python_backend/app.py:47 | `strip()` removes nothing from the collapse of a text that starts and ends with a non-space |
| PythonBackend.CollapseSingleSpaced | python_backend/app.py:45 | after collapsing, only single spaces separate words |
| PythonBackend.CollapseKeepsWords | python_backend/app.py:45 | collapsing keeps every non-space character, in order |
| PythonBackend.TrimKeepsWords | python_backend/app.py:47 | `strip` keeps every non-space character, in order |
| PythonBackend.TrimKeepsSingleSpaced | python_backend/app.py:47 | `strip` keeps a single-spaced text single-spaced |
| PythonBackend.CleanTranscript | python_backend/app.py:41-47 | the cleaned text neither starts nor ends with whitespace |
| PythonBackend.CleanTranscriptShape | python_backend/app.py:41-47 | the cleaned text is stripped, single-spaced, and keeps every non-space character of the joined fragments with annotations removed; when the annotation-free text starts and ends with a non-space, stripping removes nothing and the result is exactly its collapse |
| PythonBackend.CleanTranscriptIsCollapse | python_backend/app.py:41-47 | when the annotation-free join starts and ends with a non-space, the cleaned text is exactly its whitespace collapse |
| PythonBackend.SingleLineAnnotationRemoved | python_backend/app.py:44 | an annotation on one line is removed whole |
| PythonBackend.SplitAnnotationKept | python_backend/app.py:44 | an annotation broken by a newline is not removed |
| PythonBackend.CleanupNotIdempotent | python_backend/app.py:44-45 | the clean-up is not idempotent: a newline inside brackets becomes a space, and a second pass removes the annotation |
| PythonBackend.GetTranscript | python_backend/app.py:35-58 | the first fetch is used when it succeeds, else the English retry; the error is raised exactly when both fail and carries the retry's reason |
| PythonBackend.ProcessVideo | python_backend/app.py:191-226 | a missing body or URL gives 400 "video_url is required"; a bad URL gives 400 with the extraction message; once the ID is extracted, a failed fetch gives 500 with the fetch's error, a transcript under 50 characters gives 400, a failed model call gives 500 with its error, and otherwise the reply carries the ID, the transcript, the model's summary and questions and the transcript length; every failure is 400 or 500 |
| PythonBackend.ShortTranscriptSkipsModel | python_backend/app.py:208-209 | a transcript under 50 characters gives 400 whatever the model would have produced |
| PythonBackend.SearchTranscriptRoute | python_backend/app.py:254-292 | 400 exactly when the query or the transcript is missing; otherwise the lower-cased query, the ranked top five and the total hit count |
| FlaskBackend.MockTranscript | flask_backend.py:60-72 | the canned transcript names the video ID after its fixed prefix |
| FlaskBackend.MockQuestionsGradable | flask_backend.py:113-165 | there are four canned questions, each with four options and an answer index among them |
| FlaskBackend.ExplanationSubject | flask_backend.py:105 | the explanation names the video title, or "the subject matter" when it is absent or empty |
| FlaskBackend.ProcessVideo | flask_backend.py:45-175 | 400 without a URL or with a bad one; success exactly when an ID is extracted, with the canned transcript of that ID and its length |
| FlaskBackend.MockTranscriptNamesVideo | flask_backend.py:60-72 | the ID can be read back from between the transcript's fixed prefix and tail |
| FlaskBackend.AskQuestion | flask_backend.py:178-211 | 400 exactly when the question or the transcript is missing; otherwise the canned answer quoting the question |
| FlaskBackend.AnswerQuotesQuestion | flask_backend.py:191 | the question can be read back out of the answer |
| YoutubeApi.Component | client/src/lib/youtube-api.ts:4 | an absent group consumes nothing; a present one ends with its designator letter |
| YoutubeApi.ParseGroups | client/src/lib/youtube-api.ts:4-9 | after "PT", a text that ends or goes on with a non-digit matches no group, so every field is 0 |
| YoutubeApi.ParseDuration | client/src/lib/youtube-api.ts:4-5 | there is no match exactly when the text contains no "PT" |
| YoutubeApi.Render | client/src/lib/youtube-api.ts:11-14 | the output is `h:mm:ss` when there are hours, otherwise `m:ss`; fields are padded, never truncated |
| YoutubeApi.FormatDuration | client/src/lib/youtube-api.ts:3-15 | text without "PT" is shown as "0:00" |
| YoutubeApi.ReadBackWithHours | client/src/lib/youtube-api.ts:12 | reading `h:mm:ss` back gives the hours, minutes and seconds |
| YoutubeApi.ReadBackWithoutHours | client/src/lib/youtube-api.ts:14 | reading `m:ss` back gives the minutes and seconds |
| YoutubeApi.GroupsRoundTrip | client/src/lib/youtube-api.ts:4-9 | the groups of any designator text are read back as its components, with absent ones as zero |
| YoutubeApi.DesignatorsRoundTrip | client/src/lib/youtube-api.ts:3-15 | a duration built from any components parses back to them and formats as their clock text |
| YoutubeApi.DayPartGivesZero | client/src/lib/youtube-api.ts:4-5 | a duration with a day part has no "PT" and shows as "0:00" |
| YoutubeApi.SecondsNotCarried | client/src/lib/youtube-api.ts:9-14 | seconds are not carried into minutes: `PT90S` shows as "0:90" |
| YoutubeApi.ParseIntPrefix | client/src/lib/youtube-api.ts:18 | `parseInt` is NaN when, after leading whitespace, neither a digit nor a sign comes first; a negative result follows a minus sign |
| YoutubeApi.ParseIntOfDecimal | client/src/lib/youtube-api.ts:18 | `parseInt` of a plain string of decimal digits is its decimal value |
| YoutubeApi.FormatViewCount | client/src/lib/youtube-api.ts:17-26 | the text is shown verbatim exactly when it is not a number or is below 1000; a parsed count from 1000 up to a million takes the thousands branch with that number, and a million or more the millions branch |
| YoutubeApi.NonNumericShownVerbatim | client/src/lib/youtube-api.ts:18-25 | a count with no leading number (NaN) is shown as given |
| YoutubeApi.Lookup | client/src/lib/youtube-api.ts:41 | `colors[key] \|\| default` returns the table's entry when present and non-empty; a missing key or an empty (falsy) entry gives the default |
| YoutubeApi.SubjectColor | client/src/lib/youtube-api.ts:28-42 | a listed subject gets its badge; any other gets gray |
| YoutubeApi.LevelColor | client/src/lib/youtube-api.ts:44-51 | a listed level gets its badge; any other gets gray |
| YoutubeApi.ColorTables | client/src/lib/youtube-api.ts:29-49 | synonyms share a badge, no listed name falls back to gray, and unlisted names do |
| Storage.OrNull | server/storage.ts:140 | `x \|\| null`: an absent or empty string becomes null; anything else is kept |
| Storage.OrDefault | server/storage.ts:186-189 | `x \|\| d`: an absent or empty string becomes the default |
| Storage.NewTask | server/storage.ts:180-195 | field by field: an absent or empty status is "pending" and priority "medium"; an empty description, subject or due date is stored as null; every other given value is kept |
| Storage.AppendKeepsIds | server/storage.ts:101-111 | appending a row numbered by the counter keeps ids unique and increasing for the bumped counter |
| Storage.DeleteKeepsIds | server/storage.ts:113-120 | deleting a row keeps the id invariant; ids are never renumbered |
| Storage.OwnedBy | server/storage.ts:95-99 | the user's rows are exactly the table's rows with that owner, in table order |
| Storage.OwnedByAppend | server/storage.ts:128-145 | appending a row adds it to its owner's list only |
| Storage.TotalDuration | server/storage.ts:147-150 | the sum of the durations starting from 0: a single session's duration, and never negative when no duration is |
| Storage.TotalAfterAppend | server/storage.ts:147-150 | a new session raises its owner's total by its duration and leaves everyone else's alone |
| Storage.RemoveFirst | server/storage.ts:113-120 | a removal with no match changes nothing; otherwise exactly one row goes |
| Storage.RemoveFirstDeletesFirstMatch | server/storage.ts:113-120 | the row removed is the first match in insertion order |
| Storage.RemoveFirstKeepsOthers | server/storage.ts:113-120 | another user's bookmarks are untouched |
| Storage.DuplicateStaysBookmarked | server/storage.ts:101-120 | with two matching rows, one removal leaves the video bookmarked |
| Storage.SingleMatchUnbookmarks | server/storage.ts:113-126 | with a single matching row, removing it leaves the video unbookmarked |
| Storage.MemStorage.constructor | server/storage.ts:58-76 | the tables start empty except for the demo user, so the user counter starts at 2 and every other counter at 1 |
| Storage.MemStorage.GetUser | server/storage.ts:78-80 | the user with that id, or none exactly when no user has it |
| Storage.MemStorage.GetUserByUsername | server/storage.ts:82-86 | the first user with that username, or none exactly when no user has it |
| Storage.MemStorage.CreateUser | server/storage.ts:88-93 | appends the user under the next id and bumps that counter; nothing else changes |
| Storage.MemStorage.GetBookmarks | server/storage.ts:95-99 | exactly the user's bookmarks, in table order |
| Storage.MemStorage.AddBookmark | server/storage.ts:101-111 | appends under the next id without a duplicate check; afterwards the video is bookmarked |
| Storage.MemStorage.RemoveBookmark | server/storage.ts:113-120 | deletes the first matching bookmark; nothing else changes |
| Storage.MemStorage.IsBookmarked | server/storage.ts:122-126 | true exactly when one of the user's bookmarks is for the video |
| Storage.MemStorage.GetStudySessions | server/storage.ts:128-132 | exactly the user's sessions, in table order |
| Storage.MemStorage.GetTotalStudyTime | server/storage.ts:147-150 | a user with no sessions has total 0; the total is never negative when the user's durations are not |
| Storage.MemStorage.AddStudySession | server/storage.ts:134-145 | appends the session with an empty subject stored as null; raises the owner's total by its duration and no one else's |
| Storage.MemStorage.GetNotes | server/storage.ts:153-157 | exactly the user's notes, in table order |
| Storage.MemStorage.CreateNote | server/storage.ts:159-171 | appends the note with an empty subject stored as null |
| Storage.MemStorage.GetTasks | server/storage.ts:174-178 | exactly the user's tasks, in table order |
| Storage.MemStorage.CreateTask | server/storage.ts:180-195 | appends the task with its defaults filled in |
| Storage.MemStorage.GetFlashcards | server/storage.ts:198-202 | exactly the user's flashcards, in table order |
| Storage.MemStorage.CreateFlashcard | server/storage.ts:204-214 | appends the card under the next id |
| Storage.MemStorage.GetSchedules | server/storage.ts:217-221 | exactly the user's schedule items, in table order |
| Storage.MemStorage.CreateSchedule | server/storage.ts:223-233 | appends the item under the next id |
| StudyTimer.SaveOnStop | client/src/components/study-timer.tsx:73-79 | Stop saves the studied minutes exactly when the timer was used and that credit is positive; the credit is never more than the starting minutes |
| StudyTimer.StudiedMinutes | client/src/components/study-timer.tsx:75 | with a partial minute the elapsed time is rounded up; whole elapsed minutes lose one |
| StudyTimer.FullMinuteSavesNothing | client/src/components/study-timer.tsx:74-78 | stopping at 24:00 from 25 saves nothing |
| StudyTimer.OneSecondSavesAMinute | client/src/components/study-timer.tsx:74-78 | stopping at 24:59 from 25 saves one minute |
| StudyTimer.FormatTime | client/src/components/study-timer.tsx:86-88 | the display is two colon-separated fields, each padded to two digits |
| StudyTimer.FormatTimeReadBack | client/src/components/study-timer.tsx:86-88 | the display reads back as the minutes and seconds, five characters wide below 100 minutes |
| StudyTimer.Timer.constructor | client/src/components/study-timer.tsx:14-17 | the timer starts stopped at 25:00 |
| StudyTimer.Timer.Tick | client/src/components/study-timer.tsx:31-56 | while ticking, the remaining time drops by one second, borrowing a minute at zero seconds; otherwise nothing changes |
| StudyTimer.Timer.Start | client/src/components/study-timer.tsx:58-60 | starts the timer and keeps the time |
| StudyTimer.Timer.Pause | client/src/components/study-timer.tsx:62-64 | stops the timer and keeps the time |
| StudyTimer.Timer.Reset | client/src/components/study-timer.tsx:66-71 | back to a stopped 25:00, whatever the preset was |
| StudyTimer.Timer.Preset | client/src/components/study-timer.tsx:131-165 | sets a stopped timer to the preset minutes |
| StudyTimer.Timer.Stop | client/src/components/study-timer.tsx:73-84 | saves the credit, which is positive and at most the starting minutes, then resets to 25:00 |
| QuizAnswers.AnswerKey | client/src/components/ai-video-details.tsx:84-90 | the answer key lists each question's correct answer, in order; both quizzes use it |
| QuizAnswers.SetAnswer | client/src/components/ai-video-details.tsx:64-68 | the chosen position holds the answer; the array grows past the end with holes, and every other position is unchanged |
| QuizAnswers.CorrectUpTo | client/src/components/ai-video-details.tsx:86-88 | the count of agreeing positions among the first n never exceeds n |
| QuizAnswers.CorrectPastEnd | client/src/components/ai-video-details.tsx:86-88 | positions past either array add nothing, so the count is bounded by both lengths |
| QuizAnswers.AllCorrect | client/src/components/ai-video-details.tsx:86-88 | the count reaches n exactly when every position agrees |
| QuizAnswers.AgreeingPositionsCount | client/src/components/transcript-ai-processor.tsx:583-585 | the index-aware filter lists as many positions as are counted correct |
| TranscriptAiProcessor.Submit | client/src/components/transcript-ai-processor.tsx:112-151 | a blank field is refused with "Please enter a YouTube URL"; an unparsable one with the extraction message; otherwise the body carries the URL |
| TranscriptAiProcessor.RoundedPercent | client/src/components/transcript-ai-processor.tsx:248-257 | `Math.round(100 * correct / n)` computed exactly, with no value for zero questions |
| TranscriptAiProcessor.PercentBounds | client/src/components/transcript-ai-processor.tsx:248-257 | the score lies in 0..100, is 0 for none right and 100 for all right |
| TranscriptAiProcessor.CalculateScore | client/src/components/transcript-ai-processor.tsx:248-257 | the loop's score is the rounded percentage of agreeing answers, in 0..100 when there are questions |
| TranscriptAiProcessor.ShownCorrect | client/src/components/transcript-ai-processor.tsx:583-585 | the "You got" count never exceeds the number of answers |
| TranscriptAiProcessor.ShownCountMatchesScore | client/src/components/transcript-ai-processor.tsx:583-585 | the "You got" count is the count the percentage is computed from |
| TranscriptAiProcessor.ToastMinutes | client/src/components/transcript-ai-processor.tsx:147 | the toast shows the length in hundreds, rounded down |
| TranscriptAiProcessor.DetailsMinutes | client/src/components/transcript-ai-processor.tsx:394 | the details card shows the length in thousands, rounded up |
| TranscriptAiProcessor.MinuteFiguresDisagree | client/src/components/transcript-ai-processor.tsx:147 | a short transcript is 0 minutes in the toast but 1 on the card |
| TranscriptAiProcessor.DifficultyColor | client/src/components/transcript-ai-processor.tsx:259-266 | the lower-cased level picks its badge; any other name is gray |
| TranscriptAiProcessor.TypeColor | client/src/components/transcript-ai-processor.tsx:268-276 | the lower-cased question type picks its badge; any other is gray |
| TranscriptAiProcessor.ColorsIgnoreCase | client/src/components/transcript-ai-processor.tsx:259-276 | both badges ignore letter case |
| TranscriptAiProcessor.Quiz.constructor | client/src/components/transcript-ai-processor.tsx:140-143 | a new quiz starts at its first question with no answers |
| TranscriptAiProcessor.Quiz.Select | client/src/components/transcript-ai-processor.tsx:242-246 | records a valid option for the current question; nothing else changes |
| TranscriptAiProcessor.Quiz.Previous | client/src/components/transcript-ai-processor.tsx:550-551 | moves back one question, never below the first |
| TranscriptAiProcessor.Quiz.Next | client/src/components/transcript-ai-processor.tsx:564-566 | advances only when the current question is answered and is not the last |
| TranscriptAiProcessor.Quiz.ViewResults | client/src/components/transcript-ai-processor.tsx:556-562 | shows results only on the last question with every question answered |
| TranscriptAiProcessor.Quiz.Score | client/src/components/transcript-ai-processor.tsx:248-257 | the results percentage, defined whenever results show for a non-empty quiz |
| TranscriptAiProcessor.Quiz.Retake | client/src/components/transcript-ai-processor.tsx:589-594 | back to the first question with no answers |
| AiVideoDetails.Percent | client/src/components/ai-video-details.tsx:89 | `correct / n * 100` exactly, between 0 and 100 |
| AiVideoDetails.Score | client/src/components/ai-video-details.tsx:84-90 | the unrounded percentage of agreeing answers, between 0 and 100, undefined with no questions |
| AiVideoDetails.PerfectScore | client/src/components/ai-video-details.tsx:84-90 | all answers right scores exactly 100 |
| AiVideoDetails.ScoreColor | client/src/components/ai-video-details.tsx:352-356 | the colour is green, yellow or red |
| AiVideoDetails.ScoreMessage | client/src/components/ai-video-details.tsx:358-362 | the message is one of the three verdicts |
| AiVideoDetails.ScoreAtLeast | client/src/components/ai-video-details.tsx:352-362 | a threshold on the score is the same threshold on the count |
| AiVideoDetails.VerdictByCount | client/src/components/ai-video-details.tsx:352-362 | the verdict in terms of the count: four in five right is excellent, three in five is good |
| AiVideoDetails.GreenCards | client/src/components/ai-video-details.tsx:381-383 | no more green cards than questions |
| AiVideoDetails.GreenCardsMatchScore | client/src/components/ai-video-details.tsx:381-383 | the green result cards number as many as the counted correct answers |
| AiVideoDetails.Quiz.CurrentScore | client/src/components/ai-video-details.tsx:84-90 | the page's score is the score of its answers against the key |
| AiVideoDetails.Quiz.constructor | client/src/components/ai-video-details.tsx:46-49 | a generated quiz starts at its first question with no answers |
| AiVideoDetails.Quiz.Select | client/src/components/ai-video-details.tsx:64-68 | records a valid option for the question on screen |
| AiVideoDetails.Quiz.Next | client/src/components/ai-video-details.tsx:70-76 | once the current question is answered, advances, or shows the results on the last one; results show only when every question is answered |
| AiVideoDetails.Quiz.Previous | client/src/components/ai-video-details.tsx:78-82 | moves back one question past the first; otherwise nothing changes |
| AiVideoDetails.Quiz.Retake | client/src/components/ai-video-details.tsx:260-264 | back to the first question with no answers |
| Flashcards.FilteredCards | client/src/pages/flashcards.tsx:89-91 | exactly the cards the subject filter lets through, in order |
| Flashcards.NoFilterKeepsAll | client/src/pages/flashcards.tsx:90 | "all" and "" both keep every card |
| Flashcards.StudyPage.StudyCards | client/src/pages/flashcards.tsx:93 | the filtered cards in study mode, none otherwise |
| Flashcards.StudyPage.constructor | client/src/pages/flashcards.tsx:26-30 | the page opens outside study mode with no subject chosen |
| Flashcards.StudyPage.StartStudySession | client/src/pages/flashcards.tsx:117-123 | enters study mode at the first card only when some card passes the filter |
| Flashcards.StudyPage.EndStudySession | client/src/pages/flashcards.tsx:125-129 | leaves study mode and resets the index and the answer |
| Flashcards.StudyPage.RevealAnswer | client/src/pages/flashcards.tsx:154-155 | Show Answer shows the answer and changes nothing else |
| Flashcards.StudyPage.NextCard | client/src/pages/flashcards.tsx:96-101 | moves forward and hides the answer, except on the last card |
| Flashcards.StudyPage.PreviousCard | client/src/pages/flashcards.tsx:103-108 | moves back and hides the answer, except on the first card |
| Flashcards.StudyPage.MarkDifficulty | client/src/pages/flashcards.tsx:110-115 | sends the rating for the card on screen, then moves on as Next does; with no card it does nothing |
| Tasks.ToggleTaskStatus | client/src/pages/tasks.tsx:104-107 | completed becomes pending; any other status becomes completed |
| Tasks.ToggleNotInvolution | client/src/pages/tasks.tsx:105 | toggling an in-progress task twice leaves it pending |
| Tasks.FilteredTasks | client/src/pages/tasks.tsx:109-113 | exactly the tasks passing both filters, in order |
| Tasks.NoFiltersShowAll | client/src/pages/tasks.tsx:110-111 | unset filters show every task |
| Tasks.PendingTasks | client/src/pages/tasks.tsx:115 | exactly the shown tasks whose status is not "completed" |
| Tasks.CompletedTasks | client/src/pages/tasks.tsx:116 | exactly the shown tasks whose status is "completed" |
| Tasks.PendingCompletedPartition | client/src/pages/tasks.tsx:115-116 | pending and completed split the shown tasks, with no overlap and order kept |
| Tasks.TaskRequest | client/src/pages/tasks.tsx:69-72 | the posted body has the typed title and no status; an empty due date is sent as null |
| Tasks.SubmittedTaskStored | client/src/pages/tasks.tsx:77 | a submitted form is stored pending, with empty fields as null; the reset form gives a medium task |
| Notes.Matches | client/src/pages/notes.tsx:113-117 | the note filter: an empty search term and no subject accept every note |
| Notes.FilteredNotes | client/src/pages/notes.tsx:113-118 | exactly the notes matching the search term (any case) and the subject filter, in order |
| Notes.EmptyFiltersKeepAll | client/src/pages/notes.tsx:113-118 | no search term and no subject list every note |
| Notes.AllIsAnOrdinarySubject | client/src/pages/notes.tsx:117 | the "all" subject is not special: only notes filed under "all" remain |
| Notes.CreateBody | client/src/pages/notes.tsx:94-101 | the create request posts the form's title, content and subject |
| Notes.EditForm | client/src/pages/notes.tsx:103-111 | the edit form copies title and content and shows a null subject as "" |
| Notes.EditSubjectRoundTrip | client/src/pages/notes.tsx:103-111 | saving an opened note unchanged gives the store back its subject |
| Notes.NotesPage.constructor | client/src/pages/notes.tsx:28-32 | the page starts with no note being edited and an empty form |
| Notes.NotesPage.HandleEdit | client/src/pages/notes.tsx:103-111 | remembers the note, fills the form from it and opens the dialog |
| Notes.NotesPage.HandleSubmit | client/src/pages/notes.tsx:94-101 | an update exactly when a note is being edited, otherwise a create, carrying the form |
| Notes.NotesPage.CreateSucceeded | client/src/pages/notes.tsx:55-56 | closes the dialog and clears the form |
| Notes.NotesPage.UpdateSucceeded | client/src/pages/notes.tsx:71-72 | stops editing and clears the form |
| Schedule.DayItems | client/src/pages/schedule.tsx:80-84 | exactly the items of that day, in arrival order |
| Schedule.ScheduleByDay | client/src/pages/schedule.tsx:80-84 | seven columns, Sunday to Saturday, each holding its day's items |
| Schedule.ExactlyOneColumn | client/src/pages/schedule.tsx:80-84 | an item shows in its day's column and no other |
| Schedule.NoDataEmptyColumns | client/src/pages/schedule.tsx:80-84 | with no data every column is empty |
| Schedule.LexTotal | client/src/pages/schedule.tsx:215-216 | the start-time order compares any two times |
| Schedule.LexTransitive | client/src/pages/schedule.tsx:215-216 | the start-time order is transitive |
| Schedule.SortedPairwise | client/src/pages/schedule.tsx:215-216 | a column sorted between neighbours is sorted between any two positions |
| Schedule.SortByStart | client/src/pages/schedule.tsx:215-216 | sorts the array in place by start time, as a permutation |
| Schedule.DisplayedColumn | client/src/pages/schedule.tsx:215-216 | a displayed column is its day's items, sorted by start time |
| Schedule.CreateBody | client/src/pages/schedule.tsx:74-77 | the create request posts every field of the form |
| Schedule.ResetFormPostsAll | client/src/pages/schedule.tsx:66 | the reset form is Sunday and blue, with the literal subject "all" |
| LearningAnalytics.JsRem60 | client/src/components/ai-learning-analytics.tsx:97 | JavaScript's `% 60`: the remainder takes the sign of the minutes |
| LearningAnalytics.IntToString | client/src/components/ai-learning-analytics.tsx:98 | a number in a template literal prints as its decimal digits, with a leading "-" when negative |
| LearningAnalytics.FormatTime | client/src/components/ai-learning-analytics.tsx:95-99 | for every count, negative ones included, the text is two space-separated figures: the floored hours with "h", then JavaScript's signed remainder with "m" |
| LearningAnalytics.FormatTimeReadBack | client/src/components/ai-learning-analytics.tsx:95-99 | a non-negative count prints as two figures, whole hours and minutes under 60, which read back to the count |
| LearningAnalytics.SixtyOneMinutes | client/src/components/ai-learning-analytics.tsx:98 | the minutes figure is not zero-padded: 61 minutes show as "1h 1m" |
| LearningAnalytics.MinusOneMinute | client/src/components/ai-learning-analytics.tsx:95-99 | a negative count prints both figures with a sign |
| LearningAnalytics.TotalStudyTimeShown | client/src/components/ai-learning-analytics.tsx:43 | the panel's 1847 minutes show as "30h 47m" |
| LearningAnalytics.DifficultyColor | client/src/components/ai-learning-analytics.tsx:86-93 | an exact, case-sensitive match on the three levels; anything else is gray |
| LearningAnalytics.DifficultyBadgesCompared | client/src/components/ai-learning-analytics.tsx:86-93 | agrees with the processor's badge on lower-case names but not on a capitalised one |
| LearningAnalytics.Button | client/src/components/ai-learning-analytics.tsx:297-304 | disabled exactly when prerequisites are unmet; "Continue" with progress shown exactly when started, otherwise "Start" |
| LearningAnalytics.SuggestedPathButtons | client/src/components/ai-learning-analytics.tsx:54-85 | the first two suggested paths continue; the third is a disabled Start |
| VideoComponents.SubjectFromTitle | client/src/components/video-card.tsx:68-74 | "Education" exactly when no listed subject is mentioned; otherwise the first listed subject the title mentions |
| VideoComponents.SubjectIsListed | client/src/components/video-card.tsx:68-74 | the subject is always listed or the default |
| VideoComponents.MathematicsWins | client/src/components/video-card.tsx:69-73 | list order breaks ties: any title mentioning "mathematics" gets Mathematics |
| VideoComponents.MathIsMathematicsOrMath | client/src/components/video-card.tsx:69-73 | a title mentioning "math" gets one of the two mathematics entries |
| VideoComponents.LevelFromTitle | client/src/components/video-card.tsx:76-80 | Beginner exactly for "beginner" or "basic"; Advanced exactly for "advanced" without those; otherwise Intermediate |
| VideoComponents.ClassifiersIgnoreCase | client/src/components/video-card.tsx:68-80 | neither classifier depends on letter case |
| VideoComponents.CardToggle | client/src/components/video-card.tsx:59-65 | deletes exactly when shown bookmarked; otherwise posts the video with its formatted duration |
| VideoComponents.ModalToggle | client/src/components/video-modal.tsx:66-72 | the same, but posts the raw duration |
| VideoComponents.TogglesDifferOnlyInDuration | client/src/components/video-modal.tsx:32-39 | the two toggles send the same request apart from the duration |
| VideoComponents.Apply | server/storage.ts:101-120 | a post appends the bookmark under the next id; a delete removes the first match |
| VideoComponents.ToggleFlips | client/src/components/video-card.tsx:59-65 | with at most one bookmark per video, a toggle flips whether the video is bookmarked |
| VideoComponents.EmbedUrl | client/src/components/video-modal.tsx:92 | the player address is the embed prefix, the ID, then the fixed query |
| VideoComponents.EmbedUrlRoundTrip | client/src/components/video-modal.tsx:92 | extracting an ID from the player address gives back the ID |

## Left out

- Calls to the language model and the OpenAI client are not modelled: summaries, questions, answers, smart search, `generate_summary_and_questions`, the Python `ask_question` route and `server/ai-service.ts`. `PythonBackend.ProcessVideo` takes the model's reply as a parameter.
- Fetching transcripts from YouTube, including the server's subprocess call, is left out. `PythonBackend.GetTranscript` takes both fetch outcomes as parameters.
- The HTTP routes of `server/routes.ts`, React rendering, toasts, query caching and invalidation, and the interval timer are left out. The bookmark status query and request success are parameters or explicit method calls.
- Creation timestamps (`createdAt`, `completedAt`) are not stored: they come from the clock.
- `shared/schema.ts` validation is not part of this model.
- The client calls PATCH on flashcards and tasks and PUT/DELETE on notes, but the store has no such operations. The model stops at the request the client sends.
- YoutubeApi.FormatViewCount: only the branch is modelled; the `toFixed(1)` rounding of the K and M forms is not.
- Arithmetic is exact. `Math.round`, the floating-point percentage and `toFixed` are computed over integers and rationals, so rounding error and NaN arithmetic are not captured. A missing score is `None`.
- `toLowerCase` is ASCII-only: no Unicode case mapping. Whitespace is exactly space, `\t`, `\n`, `\v`, `\f` and `\r`. Python's `\s` and `strip()` also treat the separators `\x1c`–`\x1f` (and Unicode spaces) as whitespace; those are not included. JavaScript's `trim()` and `toLowerCase()` likewise act on Unicode whitespace and letters, which the model does not.
- Strings are sequences of characters, whereas JavaScript's `.length` and `split("")` count UTF-16 code units: for text outside the Basic Multilingual Plane, `TranscriptSearch.Score`'s empty-query case and `TranscriptAiProcessor.ToastMinutes` / `DetailsMinutes` count characters where the client counts code units.
- Tasks.TaskRequest: the client's `new Date(dueDate).toISOString()` conversion of a non-empty due date, and the exception it throws for an unparsable date, are not modelled; the due date is posted as typed.
- `localeCompare` in the schedule sort is approximated by code-unit lexicographic order.
- Schedule.SortByStart: the sort is proved sorted and a permutation but not stable; the order of items with equal start times is left open.
- The random progress animation of the transcript processor is left out.
- A duration that is not a number (NaN) in study sessions is left out.
- Changing the flashcard subject filter during a study session is not modelled: the filter is fixed while studying.
- StudyTimer.Timer.Tick: the completion branch (save the session at 0:00) cannot run, because no interval exists at 0:00 while running; it is modelled as unreachable.
- FlaskBackend.ProcessVideo, PythonBackend.ProcessVideo and PythonBackend.SearchTranscriptRoute: every JSON value is taken to be a string. A non-string value (a number for `video_url` or `query`) makes the source raise inside the handler, which answers 500; those paths are not modelled.
- YoutubeApi.Lookup: the colour tables are plain object literals, so an inherited key such as "constructor" or "toString" yields a truthy function rather than the default. The tables are modelled as maps without inherited keys; the callers only pass subjects and levels from the listed data.
- `client/src/pages/dashboard.tsx` inlines the same hours-and-minutes formula as `LearningAnalytics.FormatTime` for the stored total; it is not modelled separately.
