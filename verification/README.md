# EchoScribe transcript core in Dafny

EchoScribe takes a meeting recording and returns three things: a transcript, the transcript split by speaker, and a summary. This project models the deterministic logic around those results. It has three parts:

- **The back end's merge** (`main.py`). Whisper yields words with start times, grouped in segments. Pyannote yields speaker turns with a start, an end and a label. For each turn, the words that start inside it are gathered, joined and stripped into one transcript entry. A turn that catches no word is dropped. The entries are then written as `speaker: text` lines, which form the prompt for the summary.
- **The transcript view** (`TranscriptDisplay.tsx`):
  - the `m:ss` clock;
  - the two speaker palettes, with their gray fallback;
  - the badge label, where the first underscore becomes a space;
  - the per-speaker cards;
  - the body of the markdown file offered for download.
- **The page's state machine** (`App.tsx`, `AudioUploader.tsx`):
  - three flags and three callbacks on the page;
  - the uploader's staged file, progress and drag highlight, with their handlers;
  - the gating of the controls on the page;
  - the scroll effect.

The modules follow the program's structure:

| module | file | contents |
|---|---|---|
| `Wrappers` | `wrappers.dfy` | `Option` |
| `Text` | `text.dfy` | Python's `str.strip`, string concatenation, decimal digits, `padStart` |
| `Selection` | `selection.dfy` | filter-and-map over a sequence, with rank lemmas |
| `Transcript` | `transcript.dfy` | the response records |
| `Align` | `align.dfy` | the merge and the prompt text |
| `Render` | `render.dfy` | the transcript view |
| `AppView` | `app_view.dfy` | the page controller |
| `Uploader` | `uploader.dfy` | the uploader's handlers |
| `Session` | `session.dfy` | both components under the page's gating |

Some calls are inputs to the model rather than part of it:

- **Timestamps** are `real`s.
- **`f"{x:.2f}"`** is the function parameter `fmt`.
- **`parseFloat`** is a parameter `string -> Option<real>`. `None` stands for `NaN`.
- **`validateAudioFile`** is a predicate `isValid`.
- **The `transcribeAudio` request** is split into its progress reports and a `TranscribeOutcome`.
- **The localised date** in the download is a string input.

## Model

| member | source | states |
|---|---|---|
| Text.Strip | main.py:106 | The result is the slice of the input that drops leading and trailing whitespace (Python's `isspace` set), and it has no whitespace at either end. |
| Text.StripUnique | main.py:106 | Any slice that drops only whitespace and keeps no whitespace at either end equals `Strip`, so the characterisation determines the result. |
| Text.StripIdempotent | main.py:106 | Stripping twice is stripping once. |
| Text.NatToStringRoundTrip | frontend/src/components/TranscriptDisplay.tsx:36 | The decimal rendering of a whole number reads back as that number. |
| Text.PadStart | frontend/src/components/TranscriptDisplay.tsx:36 | The padded string has length `max(width, \|s\|)`, ends with `s` and begins with fill characters only. |
| Selection.FilterMapAt | main.py:95-104 | A kept element appears in the output at its rank, the number of kept elements before it. |
| Selection.FilterMapSource | main.py:95-104 | Every output element comes from a kept input element, at the rank of that element. |
| Selection.RankIncreases | main.py:95-104 | Kept elements keep their input order in the output. |
| Selection.FilterMapEmpty | main.py:103 | The output is empty exactly when no element is kept. |
| Align.FlattenAt | main.py:97-98 | Word `k` of segment `j` is the flattened word at the offset of segment `j` plus `k`. |
| Align.FlattenOrder | main.py:97-98 | The two nested loops visit words in segment-then-word order. |
| Align.WordCollected | main.py:99-101 | A word whose start lies in `[turn.start, turn.end)` is collected, at its rank. |
| Align.CollectedWordSource | main.py:99-101 | Every collected string is the text of a word that starts inside the turn. |
| Align.CollectedInOrder | main.py:97-101 | Collected words keep their transcription order. |
| Align.EntryIffCaught | main.py:103-104 | A turn yields an entry exactly when some word starts inside it. |
| Align.Merge | main.py:94-109 | There are never more entries than turns. |
| Align.MergeEntrySource | main.py:103-109 | Every entry comes from a productive turn. It carries that turn's speaker, its formatted start and end, and the stripped concatenation of the words it caught. |
| Align.MergeKeepsProductiveTurn | main.py:103-109 | Every turn that catches a word yields exactly that entry, at its rank among productive turns. |
| Align.MergeInTurnOrder | main.py:95-104 | Entries keep the diarisation's turn order. |
| Align.DisjointHitsAtMostOnce | main.py:95-101 | With pairwise non-overlapping turns, a word lies in at most one turn. |
| Align.DisjointTurnsUseEachWordOnce | main.py:95-101 | With pairwise non-overlapping turns, the turns catch at most as many words as there are. |
| Align.OverlapRepeatsWord | main.py:95-109 | When a word starts inside two turns, the turns overlap, both produce entries in turn order, and each turn's collected words contain that word, so its text appears in both entries. |
| Align.ScanTurn | main.py:96-101 | The two inner loops for one turn collect the text of exactly the words that start inside it, in transcription order. |
| Align.MergeLoop | main.py:94-109 | The three nested loops compute `Merge`, the entry-by-entry description above. |
| Align.PromptLineAt | main.py:115-117 | Entry `k`'s `speaker: text` line follows the lines of the entries before it. |
| Align.PromptTranscriptAppend | main.py:115-117 | The prompt text of two lists of entries is the concatenation of their prompt texts. |
| Align.BuildPrompt | main.py:115-117 | The accumulation loop yields one `speaker: text` line per entry, in order, and nothing else. |
| Render.ClockParts | frontend/src/components/TranscriptDisplay.tsx:34-35 | For a non-negative time, `Math.floor(t / 60)` and `Math.floor(t % 60)`, taken with JavaScript's truncating `%`, are the whole minutes and leftover whole seconds of `floor(t)`. |
| Render.JsClock | frontend/src/components/TranscriptDisplay.tsx:34-36 | For a non-negative number, JavaScript's `Math.floor` of the quotient and of the truncating remainder, rendered and padded, give the clock of its whole minutes and leftover whole seconds. |
| Render.FormatTime | frontend/src/components/TranscriptDisplay.tsx:31-37 | `NaN` gives `0:00`. A non-negative time gives its whole minutes in decimal, a colon, and its leftover seconds as exactly two digits. |
| Render.FormatTimeRoundTrip | frontend/src/components/TranscriptDisplay.tsx:31-37 | A non-negative time's clock parses back to its whole seconds, and its seconds field is below 60. |
| Render.ClockReadBack | frontend/src/components/TranscriptDisplay.tsx:36 | A clock built from `m` minutes and `s < 60` seconds parses back to `60m + s`. |
| Render.NegativeTime | frontend/src/components/TranscriptDisplay.tsx:34-36 | A negative time renders with negative fields: -30 seconds gives `-1:-30`. |
| Render.UnderAMinute | frontend/src/components/TranscriptDisplay.tsx:34-36 | A time under a minute renders as `0:ss`. |
| Render.TimeRangeExample | frontend/src/components/TranscriptDisplay.tsx:108 | A segment from 1.5 to 3.0 seconds is labelled `0:01 - 0:03`. |
| Render.PaletteAgrees | frontend/src/components/TranscriptDisplay.tsx:13-29 | Including the `\|\| gray` fallback of lines 98-99: a speaker's border and background take the same hue, `SPEAKER_00`-`05` map to blue, purple, green, orange, pink and cyan, and any other label is gray for both. |
| Render.FirstIndexOf | frontend/src/components/TranscriptDisplay.tsx:107 | Returns nothing exactly when the character is absent. Otherwise it returns the position of its first occurrence. |
| Render.ReplaceFirst | frontend/src/components/TranscriptDisplay.tsx:107 | Only the first occurrence is replaced. Length and every other character are kept, and a string without the character is unchanged. |
| Render.SpeakerLabelKeepsLaterUnderscores | frontend/src/components/TranscriptDisplay.tsx:107 | A badge keeps every underscore after the first. |
| Render.SpeakerCards | frontend/src/components/TranscriptDisplay.tsx:97-110 | One card per segment, in order. Each card's colours come from its speaker's palette entry, its badge is the label with the first underscore replaced, its time label is the formatted start and end, and its text is the segment text. |
| Render.DownloadBlockAt | frontend/src/components/TranscriptDisplay.tsx:50-56 | Segment `k`'s block sits right after the header, the date line and the blocks of the earlier segments. |
| Render.DownloadStep | frontend/src/components/TranscriptDisplay.tsx:53-56 | Covering one more segment appends exactly that segment's heading and text block. |
| Render.BuildDownload | frontend/src/components/TranscriptDisplay.tsx:50-56 | The loop yields the header, the date line and one block per segment in order. The file begins with the fixed header. |
| AppView.PhaseCorrespondence | frontend/src/App.tsx:13-33 | Consistent flag triples and the phases idle, uploading and showing(data) correspond one to one. |
| AppView.Handle | frontend/src/App.tsx:17-33 | Whatever the state before, upload start lands in uploading, a received transcript in showing that very data, and reset in idle. |
| AppView.ReachableConsistent | frontend/src/App.tsx:13-33 | Along any sequence of callbacks, results are shown only with data present, and loading and showing never coincide. |
| AppView.ExactlyOnePanel | frontend/src/App.tsx:52-61 | In a consistent state, exactly one of the hero and the results panel renders, and the panel renders exactly in the showing phase. |
| AppView.ScrollOncePerEntry | frontend/src/App.tsx:35-42 | A scroll is requested exactly when a transcript arrives while no result is shown. |
| Uploader.HandleFileChange | frontend/src/components/AudioUploader.tsx:31-44 | An invalid file leaves the staged file as it was. A valid one replaces it. Nothing else changes. |
| Uploader.HandleInputChange | frontend/src/components/AudioUploader.tsx:46-51 | An empty file list changes nothing. Otherwise only the first file is offered for staging. |
| Uploader.HandleDrag | frontend/src/components/AudioUploader.tsx:53-61 | Enter and over set the highlight, leave clears it, and any other type changes nothing. |
| Uploader.HandleDrop | frontend/src/components/AudioUploader.tsx:63-71 | A drop always clears the highlight and never touches the progress. |
| Uploader.DropIsLeaveThenChoose | frontend/src/components/AudioUploader.tsx:63-71 | A drop is a drag-leave followed by choosing the same files in the input. |
| Uploader.BeginUpload | frontend/src/components/AudioUploader.tsx:73-82 | Without a staged file nothing happens and no callback is made. Otherwise the page hears upload start and progress resets to 0. |
| Uploader.ApplyReports | frontend/src/components/AudioUploader.tsx:90 | After the progress callbacks, progress shows the last report, and nothing else changes. |
| Uploader.SettleUpload | frontend/src/components/AudioUploader.tsx:90-107 | Success hands the page the returned data and sets progress to 100. Failure tells the page to reset and sets progress to 0. The staged file is kept either way. |
| Uploader.HandleUpload | frontend/src/components/AudioUploader.tsx:73-108 | The whole handler calls [start, received(data)] and ends at 100 on success, or calls [start, reset] and ends at 0 on failure. It does nothing without a file. |
| Uploader.UploadIgnoresReports | frontend/src/components/AudioUploader.tsx:90-107 | The handler's end state and calls do not depend on the progress reports made on the way. |
| Uploader.HandleLocalReset | frontend/src/components/AudioUploader.tsx:110-114 | Unstages the file, zeroes progress, keeps the highlight, and tells the page to reset once. |
| Uploader.ResetDisablesUpload | frontend/src/components/AudioUploader.tsx:192 | After a local reset the start button is disabled. |
| Session.StepPreservesInv | frontend/src/components/AudioUploader.tsx:160-198 | Every event the page enables preserves the invariant. The controller stays consistent, and a request is in flight exactly while loading, always with a file staged. At rest, progress reads 100 with results shown and 0 otherwise. |
| Session.PlayPreservesInv | frontend/src/components/AudioUploader.tsx:73-114 | The invariant holds after every allowed sequence of events. |
| Session.NoSecondUpload | frontend/src/components/AudioUploader.tsx:192 | While a request is in flight, the start button is disabled, so at most one request runs at a time. |
| Session.ReportsKeepSession | frontend/src/components/AudioUploader.tsx:90 | Progress reports are always allowed while a request is pending. They leave the page and the staged file unchanged, and the uploader ends as `setUploadProgress` applied to each report in turn. |
| Session.PlayAppend | frontend/src/components/AudioUploader.tsx:73-114 | Playing two event sequences one after the other is playing their concatenation. |
| Session.CompleteUpload | frontend/src/components/AudioUploader.tsx:73-108 | From a resting page with a file staged, click, any reports and a successful reply leave the page showing exactly the returned data, at 100%. A failed reply leaves it idle with no stale result, at 0%. The file stays staged in both cases. |

## Left out

- **Remote and file I/O.** The Whisper, pyannote and Gemini calls, the FastAPI route, temporary files and the environment set-up are left out. The model starts from their outputs.
- **Number formatting.** Python's `f"{x:.2f}"` is the parameter `fmt`. The model does not pin down how it rounds.
- **Number parsing.** JavaScript's `parseFloat` is a parameter. Floating-point rounding, infinities and the exponent form that `Number.prototype.toString` uses at 1e21 and above are not modelled. Times are exact reals.
- **Palette lookup.** The lookup does not model keys inherited from `Object.prototype`, such as a speaker labelled `constructor`. Diarisation labels are `SPEAKER_nn`.
- **Browser side effects.** Toasts, the clipboard and its copied flag, `Blob` and the download link, `new Date().toLocaleString`, and the 300 ms `setTimeout` before the scroll are left out. The scroll is modelled as the request to scroll.
- **External helpers.** `validateAudioFile` and `transcribeAudio` live in a library that is not part of this model.
- **Other components.** The summary view, particles, hero, header and footer have no logic in scope. Their markup and the uploader's icons and texts are left out too; only the gating of the controls is kept.
- **React scheduling.** State updates inside one handler are applied together. Renders in between are not modelled.
- Render.FormatTime: the contract gives the clock's digits only for non-negative times. For negative times the body follows the same JavaScript arithmetic, and only the sample `NegativeTime` states a result.
- Align.Merge: entries are described up to the unmodelled `fmt`. The start and end strings are `fmt` of the turn's bounds.

## Behaviour worth noting

- **After a failed upload the staged file is kept** (`AudioUploader.tsx:105-106` only calls `onReset` and zeroes progress). A user can therefore retry at once.
- **Progress is not forced to be monotonic.** Each report overwrites the last, and success sets 100.
- **The drop zone has no disabled state** (`AudioUploader.tsx:141`, unlike the file input at line 160). A drop during an upload can stage another file, while the request already in flight carries on with the file it was given. `Session.Enabled` therefore allows drops at any time.
