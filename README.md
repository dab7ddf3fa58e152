# podcast-viewer: a Dafny model of the transcript and playback core

podcast-viewer is a small browser application. It plays an uploaded
podcast episode next to its word-timed transcript and highlights the line
being spoken. This project models the logic behind that and proves
properties of it:

- **Transcript segmentation and active-line lookup** (`transcript.dfy`,
  `types.dfy`):
  - `SplitTranscriptIntoLines` cuts the word list into lines of
    `wordsPerLine` words (10 by default). Each line gets its text, its
    start and end times and its inclusive word-index range.
  - `FindActiveLineIndex` returns the first line whose half-open interval
    `[start, end)` holds the playback time, or -1.
  - Both are loops proved against recursive specification functions
    (`Lines`, `ActiveLineIndex`). Lemmas about those functions give the
    line count, the tiling of the word indices, the line contents, the
    join of all line texts, and the first-match semantics.
- **The playback hook** (`audio_player_hook.dfy`): a class holding
  `isPlaying`, `currentTime` and `duration`, plus an optional media
  element.
  - The element is a record of what passed between it and the hook: its
    source, the last position the hook assigned or the element reported,
    the last duration it reported, the listeners registered on it (a
    multiset) and the log of `load`/`play`/`pause` commands it was sent.
  - The mount effect and its cleanup add and remove the five listeners.
  - The five element events are input methods. The element record always
    takes on what the event reports, but the hook's own state changes only
    when the event's listener is registered.
  - The transport commands leave the hook's state alone: `play` and
    `pause` only append to the command log, and `loadAudio` also sets the
    source.
- **The upload accept rule** (`file_upload.dfy`):
  - a file is accepted when its MIME type is exactly in the list, or when
    the lowercased text after the last `.` of its name is an accepted
    extension;
  - the drop and picker handlers forward only the first file, and only
    when it is accepted.
  - `split('.')`/`pop()` are modelled literally, so the results for names
    without a dot or ending in a dot are exactly what the code gives.
- **The player's display arithmetic** (`audio_player_view.dfy`):
  - `formatTime`, with JavaScript's truncating `%`, `Math.floor`,
    `toString` and `padStart(2, '0')`;
  - the progress percentage;
  - the click-to-seek target: the click's share of the bar width, clamped
    to [0, 1], times the duration.

Times are exact `real`s. The application compares, copies and scales
them, and `formatTime` floors them and takes JavaScript's truncating
remainder; the model writes both out.

The hook is modelled as its code behaves. `seek(t)` assigns `t` to the
element and to `currentTime`, without clamping. `loadAudio` assigns the
source and sends `load()`, but does not reset `isPlaying`, `currentTime`
or `duration`.
The model follows the hook as written, and `PlaybackWalkthrough`
asserts the unclamped values for `seek(-5)` and `seek(500)` with a
duration of 120.

## Model

| member | source | states |
|---|---|---|
| Transcript.SplitTranscriptIntoLines | src/utils/transcript.ts:3-19 | The loop that steps `i` by `wordsPerLine` and pushes one line per chunk returns exactly `Lines(words, wordsPerLine)`. All the properties below are proved about that specification. |
| Transcript.JoinAppend | src/utils/transcript.ts:10 | `Join` models `join(' ')`: the join of two non-empty lists is the two joins separated by exactly one space. |
| Transcript.ChunkTextIsJoin | src/utils/transcript.ts:7-10 | The text the model builds for words `lo..hi-1` equals `words.slice(lo, hi).map(w => w.word).join(' ')`. |
| Transcript.LinesFromLength | src/utils/transcript.ts:6-8 | There is exactly one line per chunk start `i, i + k, ...` below the word count. |
| Transcript.ChunkCountBounds | src/utils/transcript.ts:6-7 | `c` chunk starts for the words from `i` satisfy `(c - 1) * k < n - i <= c * k`. |
| Transcript.LinesCount | src/utils/transcript.ts:6-8 | No words gives no lines, and no lines only for no words. `n` words give exactly `ceil(n / k)` lines. |
| Transcript.LinesFromAt | src/utils/transcript.ts:6-15 | Line `j` of the lines from `i` is the chunk that starts at `i + j * k` and ends at `min(i + j * k + k, n)`. |
| Transcript.LineAt | src/utils/transcript.ts:6-15 | Line `j` is the line made from words `j * k` to `min(j * k + k, n) - 1`. |
| Transcript.LinesTile | src/utils/transcript.ts:6-13 | The `wordIndices` ranges tile `[0, n - 1]`: the first starts at 0, each starts one past the previous end, and the last ends at `n - 1`. Every line but the last has exactly `k` words; the last has 1 to `k`. |
| Transcript.LastLine | src/utils/transcript.ts:7-13 | The last line ends at word `n - 1` and holds between 1 and `k` words. |
| Transcript.AdjacentLines | src/utils/transcript.ts:6-13 | A line that is not the last holds `k` words, and the next line starts right after it. |
| Transcript.LineContents | src/utils/transcript.ts:10-13 | A line's range lies inside the words. Its text is the `word` fields of its range joined with single spaces. Its start is the first word's start and its end the last word's end. |
| Transcript.LinesFromJoin | src/utils/transcript.ts:6-15 | Joining the texts of the lines from `i` with single spaces gives all words from `i` joined with single spaces. |
| Transcript.ChunkThenRest | src/utils/transcript.ts:7-10 | The words from `i` joined are the chunk `i..e` joined, a space, and the words from `e` joined. |
| Transcript.LinesJoin | src/utils/transcript.ts:10 | Joining all line texts with single spaces equals joining all words with single spaces. |
| Transcript.SegmentationExample | src/utils/transcript.ts:3-19 | Words a, b, c at two per line become the lines "a b" (words 0-1, times 0-2) and "c" (word 2, times 2-3). |
| Transcript.ActiveFrom | src/utils/transcript.ts:22-27 | The result is -1 or an index at or after `i` whose line contains `t`, with no containing line before it. It is -1 exactly when no line from `i` contains `t`. |
| Transcript.FindActiveLineIndex | src/utils/transcript.ts:21-28 | The result is -1 or an in-range index whose line satisfies `start <= t < end`, and no earlier line does. It is -1 if and only if no line contains `t`, and it equals `ActiveLineIndex`. |
| Transcript.ZeroWidthNeverActive | src/utils/transcript.ts:23 | A line with `start == end` is never the active line. |
| Transcript.SharedBoundaryGoesToNext | src/utils/transcript.ts:23 | At `t == lines[i].end == lines[i + 1].start`, with no earlier match and a non-empty line `i + 1`, the active line is `i + 1`. |
| Transcript.GapSelectsNothing | src/utils/transcript.ts:27 | Time 6 against the lines (0, 5) and (7, 10) gives -1. |
| AudioPlayerHook.AudioPlayer.constructor | src/hooks/useAudioPlayer.ts:4-7 | Initial state: no element, not playing, `currentTime` 0, `duration` 0. |
| AudioPlayerHook.AudioPlayer.Setup | src/hooks/useAudioPlayer.ts:9-26 | Creates the element if absent, then adds the five listeners to what is registered. The playback state is unchanged. |
| AudioPlayerHook.AudioPlayer.Cleanup | src/hooks/useAudioPlayer.ts:28-34 | Removes exactly the five listeners. Everything else is unchanged. |
| AudioPlayerHook.CleanupUndoesSetup | src/hooks/useAudioPlayer.ts:22-33 | Removing the five listeners after adding them gives back the registrations there were before, and none when there were none. |
| AudioPlayerHook.MountThenUnmount | src/hooks/useAudioPlayer.ts:9-35 | Setup followed by its cleanup leaves an existing element exactly as it was, and a created element with no listeners. The playback state is unchanged. |
| AudioPlayerHook.AudioPlayer.LoadAudio | src/hooks/useAudioPlayer.ts:37-42 | With an element: the source becomes `url` and a load command is logged. Without one: nothing happens. The playback state is never reset. |
| AudioPlayerHook.AudioPlayer.Play | src/hooks/useAudioPlayer.ts:44-46 | Logs a play command on a present element. `isPlaying`, `currentTime` and `duration` are unchanged. |
| AudioPlayerHook.AudioPlayer.Pause | src/hooks/useAudioPlayer.ts:48-50 | Logs a pause command on a present element. The playback state is unchanged. |
| AudioPlayerHook.AudioPlayer.Toggle | src/hooks/useAudioPlayer.ts:52-58 | Logs pause when playing and play otherwise. `isPlaying` itself does not change. |
| AudioPlayerHook.AudioPlayer.Seek | src/hooks/useAudioPlayer.ts:60-65 | With an element, `time` is assigned to the element's position and to `currentTime`, with no clamping. Without one, nothing changes. `isPlaying` and `duration` never change. |
| AudioPlayerHook.AudioPlayer.OnTimeUpdate | src/hooks/useAudioPlayer.ts:16 | The element record always takes the reported position. `currentTime` becomes it exactly when the listener is registered. Nothing else changes. |
| AudioPlayerHook.AudioPlayer.OnLoadedMetadata | src/hooks/useAudioPlayer.ts:17 | The element's duration is always set to the reported one. `duration` becomes it exactly when the listener is registered. Nothing else changes. |
| AudioPlayerHook.AudioPlayer.OnEnded | src/hooks/useAudioPlayer.ts:18 | `isPlaying` becomes false when the listener is registered. Only `isPlaying` may change. |
| AudioPlayerHook.AudioPlayer.OnPlay | src/hooks/useAudioPlayer.ts:19 | `isPlaying` becomes true when the listener is registered. Only `isPlaying` may change. |
| AudioPlayerHook.AudioPlayer.OnPause | src/hooks/useAudioPlayer.ts:20 | `isPlaying` becomes false when the listener is registered. Only `isPlaying` may change. |
| FileUpload.Split | src/components/FileUpload/FileUpload.tsx:45 | `split` always returns at least one piece. |
| FileUpload.LastPieceStep | src/components/FileUpload/FileUpload.tsx:45 | How the piece `pop()` returns for `s` follows from the one for `s` without its first character. |
| FileUpload.LastPieceIsAfterLastSeparator | src/components/FileUpload/FileUpload.tsx:45 | `LastPiece` models `split(sep).pop()`; it is the suffix after the last separator. It has no separator and is either the whole string or preceded by a separator. It is the whole string exactly when there is one piece. |
| FileUpload.LastPieceOfDotted | src/components/FileUpload/FileUpload.tsx:45 | For `stem.ext` with no dot in `ext`, `pop()` gives `ext`, whatever the stem holds. |
| FileUpload.LastPieceWithoutDot | src/components/FileUpload/FileUpload.tsx:45 | A name without dots is its own last piece. |
| FileUpload.ToLower | src/components/FileUpload/FileUpload.tsx:45 | `toLowerCase` keeps the length and leaves no upper-case letter. Each upper-case letter becomes its lower-case form (32 code points up), and every other character is kept. |
| FileUpload.ToLowerIdempotent | src/components/FileUpload/FileUpload.tsx:45 | Lowercasing twice gives the same as lowercasing once. |
| FileUpload.AcceptDotted | src/components/FileUpload/FileUpload.tsx:43-48 | `IsValidAudioFile` models `isValidAudioFile`, and `Extension` the lowercased last piece of the name. `stem.ext` is accepted if and only if its MIME type is listed or the lowercased `ext` is a listed extension. |
| FileUpload.AcceptWithoutDot | src/components/FileUpload/FileUpload.tsx:45-47 | A name without a dot is accepted if and only if the MIME type is listed or the whole lowercased name is a listed extension. |
| FileUpload.AcceptListedType | src/components/FileUpload/FileUpload.tsx:44-47 | A listed MIME type is accepted whatever the name. |
| FileUpload.AcceptUpperCaseExtension | src/components/FileUpload/FileUpload.tsx:45-47 | `X.MP3` is accepted whatever its MIME type. |
| FileUpload.AcceptBareExtensionName | src/components/FileUpload/FileUpload.tsx:45-47 | A file named `mp4` is accepted whatever its MIME type. |
| FileUpload.TrailingDotNeedsType | src/components/FileUpload/FileUpload.tsx:45-47 | A name ending in `.` is accepted if and only if its MIME type is listed. |
| FileUpload.MimeTypeIsCaseSensitive | src/components/FileUpload/FileUpload.tsx:47 | `AUDIO/MPEG` is not accepted (for the name `clip`). |
| FileUpload.HandleDrop | src/components/FileUpload/FileUpload.tsx:22-30 | Forwards a file if and only if there is a first file and it is accepted, and then forwards that first file. |
| FileUpload.HandleFileSelect | src/components/FileUpload/FileUpload.tsx:32-37 | No file list forwards nothing. Otherwise the same rule as a drop: the first file, if and only if it is accepted. |
| AudioPlayerView.TruncTowardZero | src/components/AudioPlayer/AudioPlayer.tsx:17 | `Trunc` drops the fraction: it moves less than 1 and never away from zero. |
| AudioPlayerView.RemainderBySixty | src/components/AudioPlayer/AudioPlayer.tsx:17 | `JsRem` models JavaScript's `%`. `seconds % 60` has the sign of `seconds` and a magnitude below 60, and `seconds` minus it is 60 times the truncated quotient. |
| AudioPlayerView.NatToString | src/components/AudioPlayer/AudioPlayer.tsx:18 | `toString()` of a natural number is a non-empty string of decimal digits. |
| AudioPlayerView.DecimalRoundTrip | src/components/AudioPlayer/AudioPlayer.tsx:18 | Reading back the digits `toString()` prints gives the number. |
| AudioPlayerView.IntToStringShape | src/components/AudioPlayer/AudioPlayer.tsx:18 | `toString()` of a non-negative integer is its decimal digits. For a negative one it is a minus sign followed by the digits of its magnitude. |
| AudioPlayerView.PadStart2Shape | src/components/AudioPlayer/AudioPlayer.tsx:18 | `padStart(2, '0')` keeps a string of two or more characters. A shorter one gets zeros in front up to length 2, with the original as the suffix. |
| AudioPlayerView.SecondsField | src/components/AudioPlayer/AudioPlayer.tsx:17-18 | For seconds below 60, the padded field is exactly the tens digit then the units digit. |
| AudioPlayerView.MinutesAndSeconds | src/components/AudioPlayer/AudioPlayer.tsx:16-17 | For `s >= 0`: minutes `floor(s / 60)` >= 0, seconds `floor(s % 60)` in [0, 60), and minutes * 60 + seconds == floor(s). |
| AudioPlayerView.FormatTimeFields | src/components/AudioPlayer/AudioPlayer.tsx:15-19 | `FormatTime` models `formatTime`. For `s >= 0` the label is the decimal minutes, one `:`, and the two digits of a seconds count below 60. Minutes * 60 + seconds == floor(s). |
| AudioPlayerView.FormatTimeExamples | src/components/AudioPlayer/AudioPlayer.tsx:15-19 | 75.5 seconds reads `1:15` and 5 seconds reads `0:05`. |
| AudioPlayerView.ProgressInRange | src/components/AudioPlayer/AudioPlayer.tsx:28 | `Progress` models `progress`. For `0 <= currentTime <= duration` and `duration > 0`, progress lies in [0, 100]. It is 100 exactly at the end. |
| AudioPlayerView.ProgressUnknownDuration | src/components/AudioPlayer/AudioPlayer.tsx:28 | While the duration is not positive, progress is 0 whatever `currentTime` is. |
| AudioPlayerView.Clamp01 | src/components/AudioPlayer/AudioPlayer.tsx:24 | `Math.max(0, Math.min(1, x))` lies in [0, 1]. It is `x` inside that range, 0 below it and 1 above it. |
| AudioPlayerView.SeekTarget | src/components/AudioPlayer/AudioPlayer.tsx:21-26 | A seek is issued if and only if the bar is present and `duration > 0`, whatever the bar's width. Its time then lies in [0, duration]. |
| AudioPlayerView.RatioWithin | src/components/AudioPlayer/AudioPlayer.tsx:24 | A click inside the bar is at a share between 0 and 1 of its width. |
| AudioPlayerView.ScaleWithin | src/components/AudioPlayer/AudioPlayer.tsx:25 | A share in [0, 1] of a positive duration lies in [0, duration]. |
| AudioPlayerView.SeekInsideBar | src/components/AudioPlayer/AudioPlayer.tsx:24-25 | A click inside the bar seeks to exactly `(clientX - left) / width * duration`. |
| AudioPlayerView.SeekThenProgress | src/components/AudioPlayer/AudioPlayer.tsx:21-28 | After a click seek, the progress bar shows the clamped click share times 100. |

## Left out

- `src/services/groq.ts` is not part of this model. It is the network client for the transcription service: upload, progress callbacks, and reading the stored key.
- `src/App.tsx` is not part of this model. It is asynchronous orchestration: object URLs, awaiting the transcription and state wiring. It only calls the modelled operations.
- `ApiKeyModal`, `ApiKeyContext`, `TranscriptView`, `LanguageSelector` and `tailwind.config.js` are not part of this model. They cover credential storage, rendering, scrolling, a constant language table and styling.
- `useTranscript` is not modelled separately. Its value is exactly `ActiveLineIndex(currentTime, lines)`; the memoisation is a rendering concern.
- The upload component's `isDragging` flag and `handleClick` are not modelled. They are UI state and a click forwarded to the hidden input.
- HTMLAudioElement behaviour is foreign. When events fire, what the clock reads and which duration is reported are the arguments of the event methods. Decoding, buffering, end-of-stream detection and failures are not modelled.
- A new element reports its duration as NaN until metadata arrives. The model uses 0. NaN, Infinity and IEEE-754 rounding are not modelled at all: times are exact reals.
- Transcript.SplitTranscriptIntoLines: requires `wordsPerLine >= 1`. With 0 the source loop never terminates, and a negative or fractional value is not a meaningful line size.
- AudioPlayerView.SeekTarget: requires a positive bar width only when the bar is present and the duration is positive. Only then does the source divide by the width, and a zero width would give Infinity or NaN in JavaScript, which is not modelled.
- AudioPlayerView.FormatTimeFields: states the `m:ss` shape only for non-negative times. `FormatTime` itself is defined for every real, with JavaScript's truncating `%` and the minus sign of `toString`, but nothing is proved about negative inputs.
- AudioPlayerView.RemainderBySixty: states the remainder's sign and size for the modulus 60 only, the one `formatTime` uses. `JsRem` itself is defined for every non-zero modulus.
- AudioPlayerHook.AudioPlayer.Cleanup: requires an element. The cleanup closes over the element its setup created, so one always exists.
- The element event methods require an element, because events only come from one.
- AudioPlayerHook.AudioPlayer.Seek: the element's own clamping of an assigned position to its seekable range is not modelled; the element record keeps `time` as assigned. The clamped value reaches the hook only as a later `OnTimeUpdate` input.
- AudioPlayerHook.AudioPlayer.LoadAudio: `load()` resetting the element's clock to 0 and its duration to NaN is not modelled; the element record keeps its last position and duration. The new values reach the hook only as later `OnTimeUpdate`/`OnLoadedMetadata` inputs.
- FileUpload.ToLower: lowers ASCII letters only. Full Unicode case mapping is not modelled.
- A `File` is its name and MIME type only. Size, contents and modification time are not read by the accept rule.
- The play/pause promise that `play()` returns, and its rejection, are not modelled.
