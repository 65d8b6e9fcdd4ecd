/** The uploader component's local state (staged file, upload progress,
    drag highlight) and its handlers. File validation and the transcription
    request belong to a library that is not part of this model: validation
    is the predicate `isValid`, the request's result a `TranscribeOutcome`.
    Toast notifications are left out. */
module Uploader {
  import opened Wrappers
  import opened Transcript
  import opened AppView

  /** What the browser reports of a chosen file. */
  datatype AudioFile = AudioFile(name: string, size: nat, mimeType: string)

  datatype UploaderState = UploaderState(file: Option<AudioFile>, uploadProgress: int, dragActive: bool)

  const InitialUploader: UploaderState := UploaderState(None, 0, false)

  /** How `transcribeAudio` ends: with the response data, or by throwing. */
  datatype TranscribeOutcome = Transcribed(data: TranscriptData) | TranscribeFailed

  /** What a handler does: its new local state and the parent callbacks it
      called, in order. */
  datatype Reaction = Reaction(state: UploaderState, calls: seq<AppEvent>)

  /** `handleFileChange`: an invalid file is refused and whatever was staged
      stays staged; a valid file replaces it. Nothing else changes. */
  function HandleFileChange(s: UploaderState, selected: AudioFile, isValid: AudioFile -> bool): (s': UploaderState)
    ensures s'.uploadProgress == s.uploadProgress && s'.dragActive == s.dragActive
    ensures s'.file == if isValid(selected) then Some(selected) else s.file
  {
    if !isValid(selected) then s else s.(file := Some(selected))
  }

  /** `handleInputChange`: the first chosen file, if there is one, goes
      through `handleFileChange`; an empty (or absent) list changes
      nothing. */
  function HandleInputChange(s: UploaderState, files: seq<AudioFile>, isValid: AudioFile -> bool): (s': UploaderState)
    ensures files == [] ==> s' == s
    ensures files != [] ==> s' == HandleFileChange(s, files[0], isValid)
  {
    if files != [] then HandleFileChange(s, files[0], isValid) else s
  }

  /** `handleDrag`: entering or hovering highlights the drop zone, leaving
      clears the highlight, any other event type leaves it as it is. */
  function HandleDrag(s: UploaderState, eventType: string): (s': UploaderState)
    ensures s'.file == s.file && s'.uploadProgress == s.uploadProgress
    ensures eventType == "dragenter" || eventType == "dragover" ==> s'.dragActive
    ensures eventType == "dragleave" ==> !s'.dragActive
    ensures eventType != "dragenter" && eventType != "dragover" && eventType != "dragleave" ==> s' == s
  {
    if eventType == "dragenter" || eventType == "dragover" then s.(dragActive := true)
    else if eventType == "dragleave" then s.(dragActive := false)
    else s
  }

  /** `handleDrop`: clears the highlight, then stages the first dropped
      file through the same validation. */
  function HandleDrop(s: UploaderState, files: seq<AudioFile>, isValid: AudioFile -> bool): (s': UploaderState)
    ensures !s'.dragActive
    ensures s'.uploadProgress == s.uploadProgress
  {
    HandleInputChange(s.(dragActive := false), files, isValid)
  }

  /** A drop behaves as a drag leaving followed by choosing the same files
      in the file input. */
  lemma DropIsLeaveThenChoose(s: UploaderState, files: seq<AudioFile>, isValid: AudioFile -> bool)
    ensures HandleDrop(s, files, isValid) == HandleInputChange(HandleDrag(s, "dragleave"), files, isValid)
  {
  }

  /** The synchronous start of `handleUpload`: without a staged file
      nothing happens and no callback is made; otherwise the parent hears
      `onUploadStart` and progress drops to 0. */
  function BeginUpload(s: UploaderState): (r: Reaction)
    ensures s.file.None? ==> r == Reaction(s, [])
    ensures s.file.Some? ==> r.calls == [UploadStart] && r.state == s.(uploadProgress := 0)
  {
    if s.file.None? then Reaction(s, [])
    else Reaction(s.(uploadProgress := 0), [UploadStart])
  }

  /** `setUploadProgress` handed to the request as its progress callback,
      applied to each report in turn: the last report wins and nothing but
      the progress changes. */
  function ApplyReports(s: UploaderState, reports: seq<int>): (s': UploaderState)
    ensures s'.file == s.file && s'.dragActive == s.dragActive
    ensures s'.uploadProgress == if reports == [] then s.uploadProgress else reports[|reports| - 1]
    decreases |reports|
  {
    if reports == [] then s else ApplyReports(s.(uploadProgress := reports[0]), reports[1..])
  }

  /** The end of `handleUpload`: on success the parent receives the data
      exactly as returned and progress becomes 100; on failure the parent
      hears `onReset` and progress becomes 0. The staged file is kept either
      way. */
  function SettleUpload(s: UploaderState, outcome: TranscribeOutcome): (r: Reaction)
    ensures r.state.file == s.file && r.state.dragActive == s.dragActive
    ensures outcome.Transcribed? ==> r.calls == [TranscriptReceived(outcome.data)] && r.state.uploadProgress == 100
    ensures outcome.TranscribeFailed? ==> r.calls == [Reset] && r.state.uploadProgress == 0
  {
    match outcome
    case Transcribed(data) => Reaction(s.(uploadProgress := 100), [TranscriptReceived(data)])
    case TranscribeFailed => Reaction(s.(uploadProgress := 0), [Reset])
  }

  /** `handleUpload` from click to completion, with the progress reports
      made while the request ran. Whatever was reported, the end state is
      fixed by the outcome alone. */
  function HandleUpload(s: UploaderState, reports: seq<int>, outcome: TranscribeOutcome): (r: Reaction)
    ensures s.file.None? ==> r == Reaction(s, [])
    ensures s.file.Some? ==> r.state.file == s.file && r.state.dragActive == s.dragActive
    ensures s.file.Some? && outcome.Transcribed? ==>
      r.calls == [UploadStart, TranscriptReceived(outcome.data)] && r.state.uploadProgress == 100
    ensures s.file.Some? && outcome.TranscribeFailed? ==>
      r.calls == [UploadStart, Reset] && r.state.uploadProgress == 0
  {
    var started := BeginUpload(s);
    if started.calls == [] then started
    else
      var finished := SettleUpload(ApplyReports(started.state, reports), outcome);
      Reaction(finished.state, started.calls + finished.calls)
  }

  /** The progress reports made while the request ran leave no trace in
      what `handleUpload` ends with. */
  lemma UploadIgnoresReports(s: UploaderState, reports: seq<int>, reports': seq<int>, outcome: TranscribeOutcome)
    ensures HandleUpload(s, reports, outcome) == HandleUpload(s, reports', outcome)
  {
  }

  /** `handleLocalReset`: unstages the file, zeroes progress and tells the
      parent to reset. */
  function HandleLocalReset(s: UploaderState): (r: Reaction)
    ensures r.state == UploaderState(None, 0, s.dragActive)
    ensures r.calls == [Reset]
  {
    Reaction(s.(file := None, uploadProgress := 0), [Reset])
  }

  /** The start button: enabled exactly when a file is staged and nothing
      is loading. */
  predicate UploadEnabled(s: UploaderState, isLoading: bool)
  {
    s.file.Some? && !isLoading
  }

  /** After a local reset the start button is disabled until a file is
      staged again, and the page hears a reset exactly once. */
  lemma ResetDisablesUpload(s: UploaderState, isLoading: bool)
    ensures !UploadEnabled(HandleLocalReset(s).state, isLoading)
    ensures HandleLocalReset(s).calls == [Reset]
  {
  }
}
