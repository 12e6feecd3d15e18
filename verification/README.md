# Video spaced-repetition app: the logic core in Dafny

This project models the browser-independent logic of a React app that
schedules video lessons for spaced repetition. It covers six pieces:

- **Upload validator** (`utils/fileValidation.ts`, module `FileValidation`):
  - the fixed chain of rejection checks on one file;
  - the 12-entry extension table;
  - the batch partition into valid and refused files.
- **Catalog operations** (`hooks/useVideoManager.ts`, module `VideoManager`):
  - appending a new record, whose display name loses its extension;
  - deleting by id;
  - the statistics summary with its rounded percentage.
- **Storage codecs** (`hooks/useLocalStorage.ts` lines 30-68, module
  `Persistence`): the JSON-ready forms of a catalog record, a collection and
  a daily playlist, in which dates become ISO-8601 text.
- **Preview display rules** (`components/PlaylistPreview.tsx`, module
  `Preview`):
  - which bucket is shown;
  - each row's number, name, "learned" mark and review prompt;
  - the empty state.
- **Two playback state machines**:
  - the classic player (`components/VideoPlayer.tsx`, module
    `VideoPlayer`), including its cast-support decision;
  - the reworked player (`components/VideoPlayer_NEW.tsx`, module
    `VideoPlayerNew`), including its pruning of stale playlists.

  Both share the session record in module `Playback`.

The records of `types/index.ts` are in module `Types`. `Wrappers` holds
`Option`, `Seqs` the per-item pass over a sequence that both batch lists
are built with, and `Text` holds the string helpers: last index of a character,
ASCII lower-casing and decimal rendering.

## How the model is built

**Dates.** A date is an integer instant. `Date.prototype.toISOString` and
`new Date(text)` are not re-implemented. They are the two functions of a
`DateCodec` passed to the codecs. Every round trip assumes only that the
pair is `Faithful`: parsing the text of an instant gives that instant back,
and the text is never empty.

**Randomness, URLs and the clock.** The fresh UUID, the object URL and the
current time are parameters of `AddVideo`.

**Player state.** Each player is a `Session` record. Every handler is a pure
function returning the new state, plus a flag saying whether
`onPlaylistComplete` was called.

**Load effect.** `Dispatch` runs one handler and then the load effect
(`Reload`). The effect runs when the item index, the audio-only mode or the
first-gesture flag changed. Its body is guarded by `videoRef.current &&
currentVideo`, and the `<video>` element exists only while the current item
resolves to a catalog record (otherwise the "not found" screen replaces the
player) and no error is shown (otherwise the error screen replaces it). So
the effect does something only when, after the handler, the item resolves
and there is no error (`Playback.Mounted`). Which playlist positions
resolve is the context's `resolved` list. The same guard decides whether a
retry reloads the element's source.

**Timers.** Scheduled timers are state, not time:
- a pending hide of the controls is `hidePending`, and it fires as the
  `HideTimer` event;
- the new player's delayed start fires as `StartTimer`.

**Platform.** Facts such as iOS, Safari, Android and the browser versions
are inputs to the cast decision.

**Learned marks.** The preview tests `originalIndex < lastPlayedIndex`
strictly: with resume index 1, item 0 is marked as learned and item 1 is
not (`Preview.ResumeIndexOneMarksOnlyFirst`).

## Model

| member | source | states |
|---|---|---|
| FileValidation.ValidateVideoFile | project-bolt-sb1-rafaoyc9vscode_3/project/src/utils/fileValidation.ts:24-95 | accepted iff present, non-empty, at most 2 GiB, a listed extension (any case) and no reported type or a `video/` one; each error holds exactly when every earlier check passed and its own failed (missing, empty, too large, no extension, unsupported extension, wrong type); a wrong type is echoed as `mimeType`, other refusals give ''; on success `mimeType` is the reported type if any, else the table's |
| FileValidation.Extension | project-bolt-sb1-rafaoyc9vscode_3/project/src/utils/fileValidation.ts:58 | the extension is the lower-cased suffix after the last '.', the whole name when there is no '.', and holds no '.' |
| FileValidation.ExtensionEmptyIff | project-bolt-sb1-rafaoyc9vscode_3/project/src/utils/fileValidation.ts:58-66 | the extension is empty, and so refused as unrecognisable, exactly for the empty name and names ending in '.' |
| FileValidation.SizeBoundary | project-bolt-sb1-rafaoyc9vscode_3/project/src/utils/fileValidation.ts:48-55 | exactly 2·1024³ bytes passes the size check; one byte more is refused with the size error whatever the name and type |
| FileValidation.ExtensionOfDotted | project-bolt-sb1-rafaoyc9vscode_3/project/src/utils/fileValidation.ts:58 | for `base.ext` with no '.' in `ext`, the extension is `ext` lower-cased whatever `base` holds |
| FileValidation.AcceptedWithListedExtension | project-bolt-sb1-rafaoyc9vscode_3/project/src/utils/fileValidation.ts:78-94 | a present file of acceptable size with a listed extension is accepted, with the table's type when none is reported and with the reported type when it starts with `video/` |
| FileValidation.UpperCaseExtensionAccepted | project-bolt-sb1-rafaoyc9vscode_3/project/src/utils/fileValidation.ts:6-19 | `X.MP4` of acceptable size with no reported type is accepted with `video/mp4` |
| FileValidation.ReportedVideoTypeWins | project-bolt-sb1-rafaoyc9vscode_3/project/src/utils/fileValidation.ts:78-94 | a `.mkv` reported as `video/webm` is accepted with `video/webm`: the reported type is not compared with the extension |
| FileValidation.AcceptedSound | project-bolt-sb1-rafaoyc9vscode_3/project/src/utils/fileValidation.ts:112-116 | every file kept in the valid list is one the validator accepts |
| FileValidation.RejectionsSound | project-bolt-sb1-rafaoyc9vscode_3/project/src/utils/fileValidation.ts:117-122 | every refusal names a file the validator refuses and carries that file's message |
| FileValidation.PartitionCounts | project-bolt-sb1-rafaoyc9vscode_3/project/src/utils/fileValidation.ts:112-122 | the accepted files and the refusals together number exactly the input files |
| FileValidation.Partition | project-bolt-sb1-rafaoyc9vscode_3/project/src/utils/fileValidation.ts:109-122 | one pass over the files yields exactly the accepted files and the refusals with their messages, each in input order |
| FileValidation.ValidateVideoFiles | project-bolt-sb1-rafaoyc9vscode_3/project/src/utils/fileValidation.ts:100-133 | the valid list holds only accepted files; each invalid entry carries that file's validator message; the summary counts total = valid + invalid = input length |
| FileValidation.PartitionIsPermutation | project-bolt-sb1-rafaoyc9vscode_3/project/src/utils/fileValidation.ts:112-122 | the two lists together hold every input file exactly as often as the input does |
| FileValidation.PartitionKeepsOrder | project-bolt-sb1-rafaoyc9vscode_3/project/src/utils/fileValidation.ts:112 | input order is kept in both lists: partitioning a concatenation concatenates the partitions |
| FileValidation.MembershipIff | project-bolt-sb1-rafaoyc9vscode_3/project/src/utils/fileValidation.ts:112-122 | an input file is in the valid list iff accepted and in the refusal list iff refused |
| Seqs.FlatMapAppend | project-bolt-sb1-rafaoyc9vscode_3/project/src/utils/fileValidation.ts:112-122 | a per-item pass over a concatenation is the concatenation of the passes, which is what keeps both batch lists in input order |
| VideoManager.StripExtension | project-bolt-sb1-rafaoyc9vscode_3/project/src/hooks/useVideoManager.ts:24 | the name changes iff `/\.[^/.]+$/` matches, and then it loses exactly the matched suffix |
| VideoManager.StripExtensionExamples | project-bolt-sb1-rafaoyc9vscode_3/project/src/hooks/useVideoManager.ts:24 | "a.tar.gz" → "a.tar"; "noext" and "end." unchanged; ".bashrc" → ""; "v1.0/clip" unchanged |
| VideoManager.AddVideo | project-bolt-sb1-rafaoyc9vscode_3/project/src/hooks/useVideoManager.ts:21-37 | exactly one record is appended and the old ones are kept in order; it has the given id, URL, time and collection, status new, zero reviews, the file's size and type, and no optional dates |
| VideoManager.DeleteVideo | project-bolt-sb1-rafaoyc9vscode_3/project/src/hooks/useVideoManager.ts:39-47 | no survivor has the id, and exactly as many records go as carried it |
| VideoManager.DeleteKeepsOrder | project-bolt-sb1-rafaoyc9vscode_3/project/src/hooks/useVideoManager.ts:45 | survivors keep their order: deleting from a concatenation concatenates the deletions |
| VideoManager.DeleteMembership | project-bolt-sb1-rafaoyc9vscode_3/project/src/hooks/useVideoManager.ts:45 | a record survives iff it was in the catalog with another id |
| VideoManager.DeleteAbsent | project-bolt-sb1-rafaoyc9vscode_3/project/src/hooks/useVideoManager.ts:45 | deleting an id no record carries changes nothing |
| VideoManager.DeleteIdempotent | project-bolt-sb1-rafaoyc9vscode_3/project/src/hooks/useVideoManager.ts:45 | deleting the same id twice is deleting it once |
| VideoManager.DeleteUndoesAdd | project-bolt-sb1-rafaoyc9vscode_3/project/src/hooks/useVideoManager.ts:21-47 | deleting a just-added record under a fresh id restores the catalog |
| VideoManager.CountCompleted | project-bolt-sb1-rafaoyc9vscode_3/project/src/hooks/useVideoManager.ts:51 | the count is at most the catalog size; it equals the size iff all records are completed and is 0 iff none is |
| VideoManager.ProgressPercent | project-bolt-sb1-rafaoyc9vscode_3/project/src/hooks/useVideoManager.ts:59 | 0 for an empty catalog; otherwise the integer nearest 100·completed/total, halves up; always in [0,100], 100 when all are completed, 0 when none is |
| VideoManager.GetStats | project-bolt-sb1-rafaoyc9vscode_3/project/src/hooks/useVideoManager.ts:49-63 | total is the length, completed the completed count, progress as above; the new count and the audio and video review counts are 0, the plain review count is left unset, no collection is active and no extra session is offered |
| VideoManager.ProgressExtremes | project-bolt-sb1-rafaoyc9vscode_3/project/src/hooks/useVideoManager.ts:59 | progress is 100 for a non-empty all-completed catalog and 0 when nothing is completed |
| Persistence.FormatOptional | project-bolt-sb1-rafaoyc9vscode_3/project/src/hooks/useLocalStorage.ts:33-34 | an optional date gets text iff present, the instant's ISO text |
| Persistence.ParseOptional | project-bolt-sb1-rafaoyc9vscode_3/project/src/hooks/useLocalStorage.ts:46-47 | stored text gives a date iff present and non-empty |
| Persistence.OptionalDateRoundTrip | project-bolt-sb1-rafaoyc9vscode_3/project/src/hooks/useLocalStorage.ts:33-47 | an absent date stays absent and a present one comes back as the same instant |
| Persistence.SerializeVideo | project-bolt-sb1-rafaoyc9vscode_3/project/src/hooks/useLocalStorage.ts:30-41 | `dateAdded` becomes ISO text and each optional date becomes its text when present and stays absent otherwise; the file's name, type and size are each present iff there is a file, and then copied from it; id, name, URL, review count, status, collection, episode, thumbnail, duration, MIME and media type pass through unchanged |
| Persistence.DeserializeVideo | project-bolt-sb1-rafaoyc9vscode_3/project/src/hooks/useLocalStorage.ts:43-48 | the dates are parsed back, empty text being absent; `file` is null; the size and every other field (id, name, URL, review count, status, collection, episode, thumbnail, duration, MIME and media type) pass through unchanged |
| Persistence.VideoRoundTrip | project-bolt-sb1-rafaoyc9vscode_3/project/src/hooks/useLocalStorage.ts:30-48 | restoring a stored record gives it back with the same three instants, except `file` is null and `fileSize` is the file's size |
| Persistence.VideoRoundTripDropsFile | project-bolt-sb1-rafaoyc9vscode_3/project/src/hooks/useLocalStorage.ts:39 | a record holding a file does not survive the round trip unchanged |
| Persistence.StoringRestoredVideoLosesFileFacts | project-bolt-sb1-rafaoyc9vscode_3/project/src/hooks/useLocalStorage.ts:36-39 | storing a restored record again records no file name, type or size |
| Persistence.SerializeCollection | project-bolt-sb1-rafaoyc9vscode_3/project/src/hooks/useLocalStorage.ts:50-53 | `dateCreated` becomes ISO text; every other field passes through |
| Persistence.DeserializeCollection | project-bolt-sb1-rafaoyc9vscode_3/project/src/hooks/useLocalStorage.ts:55-58 | `dateCreated` is parsed back; every other field passes through |
| Persistence.CollectionRoundTrip | project-bolt-sb1-rafaoyc9vscode_3/project/src/hooks/useLocalStorage.ts:50-58 | a collection survives storage unchanged |
| Persistence.StoredCollectionRoundTrip | project-bolt-sb1-rafaoyc9vscode_3/project/src/hooks/useLocalStorage.ts:50-58 | stored collection text that formats some instant is stored again exactly as it was |
| Persistence.SerializePlaylist | project-bolt-sb1-rafaoyc9vscode_3/project/src/hooks/useLocalStorage.ts:60-63 | `date` becomes ISO text; items, resume index, completion, extra flag and type pass through |
| Persistence.DeserializePlaylist | project-bolt-sb1-rafaoyc9vscode_3/project/src/hooks/useLocalStorage.ts:65-68 | `date` is parsed back; everything else passes through |
| Persistence.PlaylistRoundTrip | project-bolt-sb1-rafaoyc9vscode_3/project/src/hooks/useLocalStorage.ts:60-68 | a daily playlist survives storage unchanged |
| Persistence.StoredPlaylistRoundTrip | project-bolt-sb1-rafaoyc9vscode_3/project/src/hooks/useLocalStorage.ts:60-68 | stored playlist text that formats some instant is stored again exactly as it was |
| Preview.FindIndex | project-bolt-sb1-rafaoyc9vscode_3/project/src/components/PlaylistPreview.tsx:20 | the result is -1 or the position of the first record with the id, and no earlier record has it |
| Preview.GetVideoName | project-bolt-sb1-rafaoyc9vscode_3/project/src/components/PlaylistPreview.tsx:19-22 | the name of the first record with the id, or 'Unknown Video' when there is none or its name is empty |
| Preview.EmptyNameShownAsUnknown | project-bolt-sb1-rafaoyc9vscode_3/project/src/components/PlaylistPreview.tsx:21 | a found record with an empty name is shown as 'Unknown Video' |
| Preview.IntervalText | project-bolt-sb1-rafaoyc9vscode_3/project/src/components/PlaylistPreview.tsx:26 | '15天' exactly when the review number is 4, otherwise '30天' |
| Preview.PromptText | project-bolt-sb1-rafaoyc9vscode_3/project/src/components/PlaylistPreview.tsx:27 | the prompt is the fixed head, the day count's decimal digits, the interval text and the fixed tail, in that order |
| Preview.GetReviewPrompt | project-bolt-sb1-rafaoyc9vscode_3/project/src/components/PlaylistPreview.tsx:24-30 | a prompt exists iff the item is recommended for video and its day count is present and non-zero; it is the prompt for that count and interval |
| Preview.PromptNamesDaysAndInterval | project-bolt-sb1-rafaoyc9vscode_3/project/src/components/PlaylistPreview.tsx:24-30 | a shown prompt carries the item's own day count after the fixed head, and the interval is 15 days exactly for the fourth review, otherwise 30 |
| Preview.CurrentItems | project-bolt-sb1-rafaoyc9vscode_3/project/src/components/PlaylistPreview.tsx:32-41 | 'new' shows the new bucket and 'review' the review bucket, item by item |
| Preview.BucketsIndependent | project-bolt-sb1-rafaoyc9vscode_3/project/src/components/PlaylistPreview.tsx:32-41 | the shown items never depend on the other bucket |
| Preview.RenderPreview | project-bolt-sb1-rafaoyc9vscode_3/project/src/components/PlaylistPreview.tsx:43-171 | empty state iff the bucket is empty, with no texts for reviews; otherwise the count is the bucket size, one row per item numbered index+1 with its name, prompt and a mark iff learned (new bucket, both indices present, strictly before the resume index) |
| Preview.MarkingKeepsRows | project-bolt-sb1-rafaoyc9vscode_3/project/src/components/PlaylistPreview.tsx:141-163 | changing the resume index changes at most the marks: never the count, heading, number, names or prompts |
| Preview.ReviewRowsNeverMarked | project-bolt-sb1-rafaoyc9vscode_3/project/src/components/PlaylistPreview.tsx:157-163 | no review row is ever marked as learned |
| Preview.ResumeIndexOneMarksOnlyFirst | project-bolt-sb1-rafaoyc9vscode_3/project/src/components/PlaylistPreview.tsx:157-163 | with catalog indices 0, 1, 2 and resume index 1 only the first row is marked |
| Playback.Start | project-bolt-sb1-rafaoyc9vscode_3/project/src/components/VideoPlayer.tsx:24-48 | a player mounts at the initial index in the requested mode, loading, without error, paused, with no retries used and controls shown |
| Playback.PlayDelay | project-bolt-sb1-rafaoyc9vscode_3/project/src/components/VideoPlayer.tsx:140 | 100 ms on iOS, 500 ms elsewhere |
| Playback.Reload | project-bolt-sb1-rafaoyc9vscode_3/project/src/components/VideoPlayer.tsx:81-86 | the load effect clears the error, shows the spinner and resets the retry budget, changing nothing else |
| Playback.OnError | project-bolt-sb1-rafaoyc9vscode_3/project/src/components/VideoPlayer.tsx:146-150 | an error event sets the error and clears the spinner, changing nothing else |
| Playback.OnPause | project-bolt-sb1-rafaoyc9vscode_3/project/src/components/VideoPlayer.tsx:649-655 | a pause clears playing, shows the controls and cancels the pending hide, changing nothing else |
| Playback.HideTimerFires | project-bolt-sb1-rafaoyc9vscode_3/project/src/components/VideoPlayer.tsx:246-248 | a pending hide hides the controls; with none pending nothing changes |
| Playback.Settle | project-bolt-sb1-rafaoyc9vscode_3/project/src/components/VideoPlayer.tsx:80-162 | the load effect runs exactly when a dependency changed and, in the new state, the item resolves and no error screen is shown |
| Playback.SettleKeepsErrorFlag | project-bolt-sb1-rafaoyc9vscode_3/project/src/components/VideoPlayer.tsx:82-85 | the load effect never changes the error flag; while the error screen shows it changes nothing at all |
| Playback.SettleKeepsInvariant | project-bolt-sb1-rafaoyc9vscode_3/project/src/components/VideoPlayer.tsx:80-162 | the load effect keeps the index in range and the retry count within its budget |
| VideoPlayer.GoToNext | project-bolt-sb1-rafaoyc9vscode_3/project/src/components/VideoPlayer.tsx:291-299 | before the last item: index+1, not playing, no error, no completion; at or past it: completion, state unchanged |
| VideoPlayer.GoToPrevious | project-bolt-sb1-rafaoyc9vscode_3/project/src/components/VideoPlayer.tsx:301-307 | index−1 with playing and error cleared when above 0; at 0 nothing changes |
| VideoPlayer.JumpToItem | project-bolt-sb1-rafaoyc9vscode_3/project/src/components/VideoPlayer.tsx:309-314 | the index becomes the given one; playing, the playlist panel and the error are cleared; nothing else changes |
| VideoPlayer.HandleEnded | project-bolt-sb1-rafaoyc9vscode_3/project/src/components/VideoPlayer.tsx:330-336 | before the last item it acts as next; at or past it, completion with the state unchanged |
| VideoPlayer.EndedAtLastCompletes | project-bolt-sb1-rafaoyc9vscode_3/project/src/components/VideoPlayer.tsx:333-335 | ending the last item completes without advancing or wrapping |
| VideoPlayer.EndedElsewhereAdvances | project-bolt-sb1-rafaoyc9vscode_3/project/src/components/VideoPlayer.tsx:330-332 | ending any earlier item advances by one without completing |
| VideoPlayer.RetryVideo | project-bolt-sb1-rafaoyc9vscode_3/project/src/components/VideoPlayer.tsx:338-366 | under 3 retries: one more retry, error cleared, spinner shown, and the source reloaded with a play attempt after 1000 ms iff the element is mounted; at 3: state unchanged, nothing reloaded and the alert shown |
| VideoPlayer.RetryFromErrorScreenNeverReloads | project-bolt-sb1-rafaoyc9vscode_3/project/src/components/VideoPlayer.tsx:338-350 | a retry on the error screen reloads nothing and schedules no play, and the load effect does not run: the player is left loading, without error; once the user has interacted, later gestures change nothing |
| VideoPlayer.FirstGestureRetryReloads | project-bolt-sb1-rafaoyc9vscode_3/project/src/components/VideoPlayer.tsx:66-73 | a retry clicked (mouse or keyboard) as the first gesture reloads a resolving item: the later `click` listener changes `userInteracted`, so the load effect runs on the re-mounted element with a fresh budget |
| VideoPlayer.TouchFirstGestureRetryStaysStuck | project-bolt-sb1-rafaoyc9vscode_3/project/src/components/VideoPlayer.tsx:66-73 | a first tap sets `userInteracted` through `touchstart` while the error screen shows, so nothing loads; the retry that follows reloads nothing, leaves the spinner up, and later gestures change nothing |
| VideoPlayer.RetryVideoIntended | project-bolt-sb1-rafaoyc9vscode_3/project/src/components/VideoPlayer.tsx:344-360 | the intended retry leaves the same state and alert as the code and reloads the source whenever a retry is spent on a resolving item |
| VideoPlayer.IntendedRetryReloads | project-bolt-sb1-rafaoyc9vscode_3/project/src/components/VideoPlayer.tsx:344-360 | from the error screen of a resolving item the intended retry reloads and tries to play after 1000 ms |
| VideoPlayer.RetryEnabledIffEffective | project-bolt-sb1-rafaoyc9vscode_3/project/src/components/VideoPlayer.tsx:604-609 | the retry button is enabled iff pressing it changes the state, and disabled iff pressing it would alert |
| VideoPlayer.HandleCanPlay | project-bolt-sb1-rafaoyc9vscode_3/project/src/components/VideoPlayer.tsx:117-144 | spinner and error cleared; playback attempted iff the user has interacted and the index is at or past the initial one, after 100 ms on iOS and 500 ms elsewhere |
| Playback.LoadingDone | project-bolt-sb1-rafaoyc9vscode_3/project/src/components/VideoPlayer.tsx:112-115 | metadata arriving (and, in the reworked player, the delayed start firing) clears the spinner and nothing else |
| VideoPlayer.HideControlsAfterDelay | project-bolt-sb1-rafaoyc9vscode_3/project/src/components/VideoPlayer.tsx:242-250 | a hide becomes pending, replacing any earlier one, and nothing else changes |
| VideoPlayer.ShowControlsTemporarily | project-bolt-sb1-rafaoyc9vscode_3/project/src/components/VideoPlayer.tsx:252-255 | controls shown and a hide pending, nothing else changed, audio mode or not |
| VideoPlayer.HandlePlay | project-bolt-sb1-rafaoyc9vscode_3/project/src/components/VideoPlayer.tsx:645-648 | a play event sets playing and schedules a hide, changing nothing else |
| VideoPlayer.NavigationButtonsIffMove | project-bolt-sb1-rafaoyc9vscode_3/project/src/components/VideoPlayer.tsx:688-711 | within the playlist, previous is enabled iff it moves the index, and next and skip are enabled iff they do not complete |
| VideoPlayer.Dispatch | project-bolt-sb1-rafaoyc9vscode_3/project/src/components/VideoPlayer.tsx:291-336 | completion is signalled exactly by next or ended at or past the last item, and then the state is unchanged |
| VideoPlayer.NextReloadsItem | project-bolt-sb1-rafaoyc9vscode_3/project/src/components/VideoPlayer.tsx:81-86 | next clears the error, so moving to a resolving item reloads it (loading, fresh retry budget) even from the error screen; to a missing one the budget and spinner are untouched |
| VideoPlayer.AudioModeControlsHide | project-bolt-sb1-rafaoyc9vscode_3/project/src/components/VideoPlayer.tsx:668 | the classic overlay goes when a pending hide fires, in audio-only mode too, and never shows on the error screen |
| VideoPlayer.RunKeepsInvariant | project-bolt-sb1-rafaoyc9vscode_3/project/src/components/VideoPlayer.tsx:291-366 | after any sequence of events with in-range jumps, the index stays in the playlist and retries within [0,3] |
| VideoPlayer.CheckCastSupport | project-bolt-sb1-rafaoyc9vscode_3/project/src/components/VideoPlayer.tsx:165-211 | supported iff no error iff the platform is cast-capable (iOS: Safari with AirPlay; Android: version ≥ 5, Chrome ≥ 66 and the Presentation API; desktop: remote playback); on each platform the first failing check names the error |
| VideoPlayer.AndroidMajorAsWritten | project-bolt-sb1-rafaoyc9vscode_3/project/src/components/VideoPlayer.tsx:61 | a dotted version token gives its major; a major-only or missing token gives 0 |
| VideoPlayer.AndroidVersionMisread | project-bolt-sb1-rafaoyc9vscode_3/project/src/components/VideoPlayer.tsx:61 | as written, Android 10 (major number only) with Chrome 120 and the Presentation API is told its version 0 is too old |
| VideoPlayer.AndroidMajor | project-bolt-sb1-rafaoyc9vscode_3/project/src/components/VideoPlayer.tsx:61 | any version token gives its major; a missing one gives 0 |
| VideoPlayer.AndroidVersionCorrected | project-bolt-sb1-rafaoyc9vscode_3/project/src/components/VideoPlayer.tsx:61 | reading the major of any token, every Android ≥ 5 with current Chrome and the API is supported; dotted tokens read as before |
| VideoPlayerNew.HideControlsAfterDelay | project-bolt-sb1-rafaoyc9vscode_3/project/src/components/VideoPlayer_NEW.tsx:61-73 | in audio mode the controls are forced visible and no hide is scheduled; otherwise a hide becomes pending |
| VideoPlayerNew.ShowControlsTemporarily | project-bolt-sb1-rafaoyc9vscode_3/project/src/components/VideoPlayer_NEW.tsx:75-80 | controls shown; a hide is pending afterwards iff one was before or the player is not in audio mode; nothing else changes |
| VideoPlayerNew.GoToPrevious | project-bolt-sb1-rafaoyc9vscode_3/project/src/components/VideoPlayer_NEW.tsx:175-180 | index−1 when above 0, else unchanged, then the controls are shown |
| VideoPlayerNew.GoToNext | project-bolt-sb1-rafaoyc9vscode_3/project/src/components/VideoPlayer_NEW.tsx:182-189 | completion iff at or past the last item; otherwise index+1; the controls are shown either way |
| VideoPlayerNew.HandleEnded | project-bolt-sb1-rafaoyc9vscode_3/project/src/components/VideoPlayer_NEW.tsx:191-197 | index+1 before the last item; at or past it completion with the state unchanged |
| VideoPlayerNew.RetryVideo | project-bolt-sb1-rafaoyc9vscode_3/project/src/components/VideoPlayer_NEW.tsx:199-210 | under 3 retries: one more retry, error cleared, spinner shown; at 3 only the controls change; the controls are shown either way; the source is reloaded iff a retry is spent while the element is mounted |
| VideoPlayerNew.RetryVideoIntended | project-bolt-sb1-rafaoyc9vscode_3/project/src/components/VideoPlayer_NEW.tsx:204-207 | the intended retry leaves the same state and reloads the source whenever a retry is spent on a resolving item |
| VideoPlayerNew.RetryFromErrorScreenNeverReloads | project-bolt-sb1-rafaoyc9vscode_3/project/src/components/VideoPlayer_NEW.tsx:199-207 | a retry on the error screen reloads nothing and the load effect does not run: the player is left loading, without error; once the user has interacted, later gestures change nothing |
| VideoPlayerNew.FirstGestureRetryReloads | project-bolt-sb1-rafaoyc9vscode_3/project/src/components/VideoPlayer_NEW.tsx:43-51 | a retry clicked (mouse or keyboard) as the first gesture reloads a resolving item, through the `userInteracted` dependency of the load effect |
| VideoPlayerNew.TouchFirstGestureRetryStaysStuck | project-bolt-sb1-rafaoyc9vscode_3/project/src/components/VideoPlayer_NEW.tsx:43-51 | a first tap sets `userInteracted` while the error screen shows, so nothing loads; the retry that follows reloads nothing, leaves the spinner up, and later gestures change nothing |
| VideoPlayerNew.IntendedRetryReloads | project-bolt-sb1-rafaoyc9vscode_3/project/src/components/VideoPlayer_NEW.tsx:204-207 | from the error screen of a resolving item the intended retry reloads the source |
| VideoPlayerNew.HandleCanPlay | project-bolt-sb1-rafaoyc9vscode_3/project/src/components/VideoPlayer_NEW.tsx:112-123 | after a gesture a delayed start is scheduled (100/500 ms, playing iff at or past the initial index) and the state is unchanged; before one, the spinner goes at once and nothing starts |
| VideoPlayerNew.HandlePlay | project-bolt-sb1-rafaoyc9vscode_3/project/src/components/VideoPlayer_NEW.tsx:302-305 | a play event sets playing; in audio mode it leaves the controls shown and schedules nothing |
| VideoPlayerNew.TogglePlay | project-bolt-sb1-rafaoyc9vscode_3/project/src/components/VideoPlayer_NEW.tsx:143-152 | while loading nothing happens; otherwise the controls are shown |
| VideoPlayerNew.Dispatch | project-bolt-sb1-rafaoyc9vscode_3/project/src/components/VideoPlayer_NEW.tsx:82-141 | completion exactly on next or ended at or past the last item; the audio-only mode never changes |
| VideoPlayerNew.NextReloadsItem | project-bolt-sb1-rafaoyc9vscode_3/project/src/components/VideoPlayer_NEW.tsx:84-87 | with no error shown, next to a resolving item lands on index+1 with controls shown, loading and with a fresh retry budget |
| VideoPlayerNew.SkipFromErrorScreenKeepsError | project-bolt-sb1-rafaoyc9vscode_3/project/src/components/VideoPlayer_NEW.tsx:182-189 | skipping from the error screen moves the index but keeps the error, the old retry count and the spinner state: the next item is not loaded |
| VideoPlayerNew.GoToNextIntended | project-bolt-sb1-rafaoyc9vscode_3/project/src/components/VideoPlayer_NEW.tsx:182-189 | the intended next completes exactly as the code does and otherwise also clears the error |
| VideoPlayerNew.IntendedSkipLoadsNextItem | project-bolt-sb1-rafaoyc9vscode_3/project/src/components/VideoPlayer_NEW.tsx:182-189 | with the intended next, moving to a resolving item loads it with a fresh retry budget whatever the error flag was |
| VideoPlayerNew.StartValid | project-bolt-sb1-rafaoyc9vscode_3/project/src/components/VideoPlayer_NEW.tsx:22-31 | a player mounted at an index of the playlist starts in a valid state |
| VideoPlayerNew.RunKeepsValid | project-bolt-sb1-rafaoyc9vscode_3/project/src/components/VideoPlayer_NEW.tsx:61-80 | after any sequence of events the index stays in the playlist, retries within [0,3], and in audio mode the controls stay shown with no hide pending |
| VideoPlayerNew.AudioOverlayAlwaysShown | project-bolt-sb1-rafaoyc9vscode_3/project/src/components/VideoPlayer_NEW.tsx:325 | a player opened in audio mode always has its controls shown, so the overlay is drawn whenever there is no error |
| VideoPlayerNew.FilterStalePlaylists | project-bolt-sb1-rafaoyc9vscode_3/project/src/components/VideoPlayer_NEW.tsx:218 | only completed or review playlists are kept, and never more than given |
| VideoPlayerNew.FilterKeepsOrder | project-bolt-sb1-rafaoyc9vscode_3/project/src/components/VideoPlayer_NEW.tsx:218 | survivors keep their stored order: filtering a concatenation concatenates the filterings |
| VideoPlayerNew.FilterMembership | project-bolt-sb1-rafaoyc9vscode_3/project/src/components/VideoPlayer_NEW.tsx:218 | a playlist survives iff it was stored and is completed or not a new-learning one |
| VideoPlayerNew.FilterNothingStale | project-bolt-sb1-rafaoyc9vscode_3/project/src/components/VideoPlayer_NEW.tsx:218 | a list with nothing stale is left as it is |
| VideoPlayerNew.FilterIdempotent | project-bolt-sb1-rafaoyc9vscode_3/project/src/components/VideoPlayer_NEW.tsx:218 | pruning twice is pruning once |
| VideoPlayerNew.PruneStoredPlaylists | project-bolt-sb1-rafaoyc9vscode_3/project/src/components/VideoPlayer_NEW.tsx:213-223 | a stored list is replaced by its pruning; a missing or unreadable one is left alone |

## Left out

- Browser storage: the `useLocalStorage` hook, IndexedDB, FileReader and object URLs are I/O. Only the codecs are modelled.
- Persistence.FormatOptional, Persistence.ParseOptional: the ISO-8601 text and its parsing are the runtime's built-ins, kept abstract as a `DateCodec`. Invalid dates (`NaN` instants) are not modelled.
- Persistence.DeserializeVideo: the restored object also keeps the stored `fileName` and `fileType` keys, because the spread copies them. `VideoFile` has no such fields, so the model drops them.
- FileValidation.ValidateVideoFile: the table lookup uses JavaScript `in`, so prototype keys such as `constructor` would also pass. The model accepts exactly the 12 listed extensions.
- FileValidation.Extension: `toLowerCase` is modelled on ASCII letters only. Unicode case mappings are left out.
- VideoManager.ProgressPercent: `Math.round` over a floating-point quotient is modelled as exact rational rounding, halves up. Floating-point ties that round differently are not modelled.
- `createSafeFileUrl` and `revokeSafeFileUrl` (fileValidation.ts lines 138-156) are left out: they wrap browser URL calls. The UUID generator is left out too; its result is a parameter of `AddVideo`.
- `deleteVideo`'s revocation of the object URL is left out; only the filter is modelled.
- The review scheduler is left out: it decides which items are due, their review numbers, day counts, recommendations and catalog indices, and its code is not part of this model.
- Cast device search, connection and disconnection are asynchronous browser APIs and are left out. The cast error message's text is left out too: it prints the floating-point Android version.
- User-agent parsing is left out. The platform facts are inputs; the Android version token is modelled only as far as the finding below needs.
- Media-element behaviour is left out: the play promise and its failure, `readyState`, what `src`/`load` do to the element (only whether a retry resets the source is modelled), and fullscreen and mute. A retry's or canplay's play attempt is returned as a scheduled delay, not run.
- Time is left out: `formatTime`, seeking, `timeupdate`, `currentTime` and `duration` work on floating-point seconds. The new player's seek shows the controls, and that is modelled.
- `onProgressUpdate`, the history/popstate close handling and `onClose` are callbacks into code outside this model.
- `getReviewMessage` is left out: it compares the review type with 'video', a value the type never holds, so it always yields null.
- The "video file not found" screen is left out as rendering. Its storage pruning in the new player is modelled.
- JSX layout and styling are left out, and so are the preview's icons and colours, `iconUtils.ts`, `AuthCodeModal.tsx`, `TestCollection.tsx` and the build configuration.
- Types.LearningStats: `todayReviewCount` is optional in the model although `types/index.ts` declares it a required number, because `getStats` never sets it.
- Types.PlaylistItem, Types.VideoFile: `daysSinceFirstPlay` is a JavaScript number modelled as an integer, since the scheduler that computes it is not part of this model; a fractional day count would print differently in the review prompt. `duration` is a floating-point number of seconds, modelled as a `real` that the codecs only pass through, so no rounding is involved.
- VideoPlayer.JumpToItem: the component never calls it and it checks no bounds, so the model requires none either. `RunKeepsInvariant` holds for event sequences whose jumps name items of the playlist.
- The classic player's `toggleVideoMode` has no caller either. It is modelled as an event, and the new player has no mode switch at all.

## Findings

| source | as written | input that shows it | evidently intended | confidence | as-written member | corrected member |
|---|---|---|---|---|---|---|
| project-bolt-sb1-rafaoyc9vscode_3/project/src/components/VideoPlayer.tsx:61 | the Android version is read with `/Android (\d+\.\d+)/`, so a major-only token such as `Android 10` (Chrome's reduced user-agent string sends `Android 10; K` on every device) does not match and falls back to 0 | an Android 10 device with Chrome 120 and the Presentation API: the cast check reports "Android 0 is too old" | read the major version of any `Android N` or `Android N.M` token | medium; not executed | VideoPlayer.AndroidMajorAsWritten (shown by VideoPlayer.AndroidVersionMisread) | VideoPlayer.AndroidMajor (proved in VideoPlayer.AndroidVersionCorrected) |
| project-bolt-sb1-rafaoyc9vscode_3/project/src/components/VideoPlayer.tsx:344 | `retryVideo` reloads the source only `if (videoRef.current && currentVideo)`, but its only button is on the error screen, where the `<video>` element is not rendered, so the reference is null; the load effect does not re-run because none of its dependencies changed | after the user has already clicked or touched the player, an item whose load fails: pressing retry shows the spinner over a `<video>` with no source, and nothing loads until the user navigates (a retry clicked with the mouse or keyboard as the first gesture does reload, because the click sets `userInteracted` after the handler; a first tap does not, because its `touchstart` sets `userInteracted` while the error screen still shows) | reload the current item's source when retrying from the error screen | medium; not executed | VideoPlayer.RetryVideo (shown by VideoPlayer.RetryFromErrorScreenNeverReloads) | VideoPlayer.RetryVideoIntended (proved in VideoPlayer.IntendedRetryReloads) |
| project-bolt-sb1-rafaoyc9vscode_3/project/src/components/VideoPlayer_NEW.tsx:204 | the reworked `retryVideo` has the same `videoRef.current` guard, so a retry from the error screen reloads nothing either | after the user has already clicked or touched the player, an item whose load fails: pressing retry leaves the spinner up over a `<video>` with no source (a retry clicked with the mouse or keyboard as the first gesture does reload, because the click sets `userInteracted` after the handler; a first tap does not, because its `touchstart` sets `userInteracted` while the error screen still shows) | reload the current item's source when retrying from the error screen | medium; not executed | VideoPlayerNew.RetryVideo (shown by VideoPlayerNew.RetryFromErrorScreenNeverReloads) | VideoPlayerNew.RetryVideoIntended (proved in VideoPlayerNew.IntendedRetryReloads) |
| project-bolt-sb1-rafaoyc9vscode_3/project/src/components/VideoPlayer_NEW.tsx:182-189 | the error screen's skip button calls `goToNext`, which, unlike the classic player's, does not clear the error; the `<video>` stays unrendered and the load effect's guard skips the reload | item 0 of 3 fails and the user presses skip: the error screen stays up for item 1, showing item 0's retry count, and item 1 is never loaded | clear the error when advancing, as the classic player does, so the next item loads | high; not executed | VideoPlayerNew.GoToNext (shown by VideoPlayerNew.SkipFromErrorScreenKeepsError) | VideoPlayerNew.GoToNextIntended (proved in VideoPlayerNew.IntendedSkipLoadsNextItem) |

Each player's `Dispatch` models its component as written. The corrected
definitions differ from the written ones only in what the table names. They
are stated against the same load effect (`Playback.Settle`), and the
corrected retries leave exactly the same state as the written ones.
