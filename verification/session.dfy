/** The page and the uploader together: user events, gated the way the page
    gates them (the file input and the reset buttons are unavailable while
    loading, the start button needs a staged file and no load in progress),
    with the uploader's callbacks driving the page's controller. `pending`
    records that a transcription request is in flight. */
module Session {
  import opened Wrappers
  import opened Transcript
  import opened AppView
  import opened Uploader

  datatype Session = Session(app: AppState, uploader: UploaderState, pending: bool)

  const Start: Session := Session(Initial, InitialUploader, false)

  datatype UserEvent =
    | ChooseFiles(files: seq<AudioFile>)
    | DragEvent(eventType: string)
    | DropFiles(files: seq<AudioFile>)
    | ClickUpload
    | ProgressReport(percent: int)
    | TranscriptionSettled(outcome: TranscribeOutcome)
    | ClickReset

  /** The page's handlers applied to the callbacks, in order. */
  function Notify(app: AppState, calls: seq<AppEvent>): AppState
  {
    Run(app, calls)
  }

  lemma NotifyOne(app: AppState, e: AppEvent)
    ensures Notify(app, [e]) == Handle(app, e)
  {
    assert [e][0] == e && [e][1..] == [];
    assert Run(Handle(app, e), []) == Handle(app, e);
  }

  /** Which events the page lets happen. The drop zone has no disabled
      state, so drags and drops are possible at any time. */
  predicate Enabled(s: Session, e: UserEvent)
  {
    match e
    case ChooseFiles(_) => !s.app.isLoading
    case DragEvent(_) => true
    case DropFiles(_) => true
    case ClickUpload => UploadEnabled(s.uploader, s.app.isLoading)
    case ProgressReport(_) => s.pending
    case TranscriptionSettled(_) => s.pending
    case ClickReset => s.uploader.file.Some? && !s.app.isLoading
  }

  function Step(s: Session, e: UserEvent, isValid: AudioFile -> bool): Session
  {
    match e
    case ChooseFiles(files) => s.(uploader := HandleInputChange(s.uploader, files, isValid))
    case DragEvent(t) => s.(uploader := HandleDrag(s.uploader, t))
    case DropFiles(files) => s.(uploader := HandleDrop(s.uploader, files, isValid))
    case ClickUpload =>
      var r := BeginUpload(s.uploader);
      Session(Notify(s.app, r.calls), r.state, s.pending || r.calls != [])
    case ProgressReport(p) => s.(uploader := ApplyReports(s.uploader, [p]))
    case TranscriptionSettled(outcome) =>
      var r := SettleUpload(s.uploader, outcome);
      Session(Notify(s.app, r.calls), r.state, false)
    case ClickReset =>
      var r := HandleLocalReset(s.uploader);
      Session(Notify(s.app, r.calls), r.state, s.pending)
  }

  /** What holds of every session the page can reach: the controller is
      consistent; a request is in flight exactly while the page is loading,
      and then a file is staged; at rest, progress reads 100 while results
      are shown and 0 otherwise. */
  predicate Inv(s: Session)
  {
    && Consistent(s.app)
    && (s.pending <==> s.app.isLoading)
    && (s.pending ==> s.uploader.file.Some?)
    && (!s.pending ==> s.uploader.uploadProgress == if s.app.showResults then 100 else 0)
  }

  lemma StepPreservesInv(s: Session, e: UserEvent, isValid: AudioFile -> bool)
    requires Inv(s) && Enabled(s, e)
    ensures Inv(Step(s, e, isValid))
  {
    match e
    case ClickUpload =>
      NotifyOne(s.app, UploadStart);
    case TranscriptionSettled(outcome) =>
      var r := SettleUpload(s.uploader, outcome);
      NotifyOne(s.app, r.calls[0]);
    case ClickReset =>
      NotifyOne(s.app, Reset);
    case _ =>
  }

  /** Events the page allows, one after the other. */
  predicate Allowed(s: Session, events: seq<UserEvent>, isValid: AudioFile -> bool)
    decreases |events|
  {
    events == [] || (Enabled(s, events[0]) && Allowed(Step(s, events[0], isValid), events[1..], isValid))
  }

  function Play(s: Session, events: seq<UserEvent>, isValid: AudioFile -> bool): Session
    decreases |events|
  {
    if events == [] then s else Play(Step(s, events[0], isValid), events[1..], isValid)
  }

  /** The invariant holds along every allowed run from the start. */
  lemma {:induction false} PlayPreservesInv(s: Session, events: seq<UserEvent>, isValid: AudioFile -> bool)
    requires Inv(s) && Allowed(s, events, isValid)
    ensures Inv(Play(s, events, isValid))
    decreases |events|
  {
    if events != [] {
      StepPreservesInv(s, events[0], isValid);
      PlayPreservesInv(Step(s, events[0], isValid), events[1..], isValid);
    }
  }

  /** At most one request is ever in flight: while one is, the start button
      is disabled. */
  lemma NoSecondUpload(s: Session)
    requires Inv(s) && s.pending
    ensures !Enabled(s, ClickUpload)
  {
  }

  /** Progress reports while the request runs, as events. */
  function Reports(percents: seq<int>): seq<UserEvent>
  {
    seq(|percents|, i requires 0 <= i < |percents| => ProgressReport(percents[i]))
  }

  /** Reports touch nothing but the progress while a request is pending:
      the uploader ends as `setUploadProgress` applied to each report. */
  lemma {:induction false} ReportsKeepSession(s: Session, percents: seq<int>, isValid: AudioFile -> bool)
    requires s.pending
    ensures Allowed(s, Reports(percents), isValid)
    ensures var s' := Play(s, Reports(percents), isValid);
      && s'.app == s.app && s'.pending
      && s'.uploader.file == s.uploader.file
      && s'.uploader == ApplyReports(s.uploader, percents)
    decreases |percents|
  {
    if percents != [] {
      var events := Reports(percents);
      var next := Step(s, events[0], isValid);
      assert events[1..] == Reports(percents[1..]);
      ReportsKeepSession(next, percents[1..], isValid);
    }
  }

  lemma {:induction false} PlayAppend(s: Session, a: seq<UserEvent>, b: seq<UserEvent>, isValid: AudioFile -> bool)
    ensures Play(s, a + b, isValid) == Play(Play(s, a, isValid), b, isValid)
    ensures Allowed(s, a + b, isValid) <== Allowed(s, a, isValid) && Allowed(Play(s, a, isValid), b, isValid)
    decreases |a|
  {
    if a != [] {
      assert (a + b)[0] == a[0] && (a + b)[1..] == a[1..] + b;
      PlayAppend(Step(s, a[0], isValid), a[1..], b, isValid);
    } else {
      assert a + b == b;
    }
  }

  /** A complete upload from a resting page with a staged file: whatever
      progress was reported, a successful request leaves the page showing
      exactly the returned data, with the results panel rendered, progress at
      100 and the file still staged; a failed one leaves the page idle with
      no stale result, progress at 0 and the file still staged. */
  lemma CompleteUpload(s: Session, percents: seq<int>, outcome: TranscribeOutcome, isValid: AudioFile -> bool)
    requires Inv(s) && Enabled(s, ClickUpload)
    ensures var events := [ClickUpload] + Reports(percents) + [TranscriptionSettled(outcome)];
      && Allowed(s, events, isValid)
      && var s' := Play(s, events, isValid);
      && !s'.pending
      && s'.uploader.file == s.uploader.file
      && (outcome.Transcribed? ==>
            s'.app == Flags(Showing(outcome.data)) && ResultsShown(s'.app) && s'.uploader.uploadProgress == 100)
      && (outcome.TranscribeFailed? ==>
            s'.app == Flags(Idle) && s'.app.transcriptData.None? && s'.uploader.uploadProgress == 0)
  {
    var started := Step(s, ClickUpload, isValid);
    NotifyOne(s.app, UploadStart);
    assert started.pending;
    ReportsKeepSession(started, percents, isValid);
    var during := Play(started, Reports(percents), isValid);
    var last := [TranscriptionSettled(outcome)];
    var r := SettleUpload(during.uploader, outcome);
    NotifyOne(during.app, r.calls[0]);
    assert Allowed(during, last, isValid) by {
      assert last[1..] == [];
    }
    assert Play(during, last, isValid) == Step(during, last[0], isValid) by {
      assert last[1..] == [];
    }
    assert [ClickUpload][1..] == [];
    PlayAppend(s, [ClickUpload], Reports(percents), isValid);
    PlayAppend(s, [ClickUpload] + Reports(percents), last, isValid);
  }
}
