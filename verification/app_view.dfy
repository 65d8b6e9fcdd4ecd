/** The page-level result controller: three pieces of state driven by the
    three callbacks handed to the uploader, the two render conditions, and
    the scroll effect keyed on `showResults`. */
module AppView {
  import opened Wrappers
  import opened Transcript

  datatype AppState = AppState(transcriptData: Option<TranscriptData>, isLoading: bool, showResults: bool)

  /** Nothing loaded, nothing loading, nothing shown. */
  const Initial: AppState := AppState(None, false, false)

  /** The three handlers: `handleUploadStart`, `handleTranscriptReceived`
      and `handleReset`. */
  datatype AppEvent = UploadStart | TranscriptReceived(data: TranscriptData) | Reset

  /** The controller's phases as a design would name them. */
  datatype Phase = Idle | Uploading | Showing(data: TranscriptData)

  /** The flags a phase stands for. */
  function Flags(p: Phase): AppState
  {
    match p
    case Idle => AppState(None, false, false)
    case Uploading => AppState(None, true, false)
    case Showing(d) => AppState(Some(d), false, true)
  }

  /** Data is held exactly while results are shown, and loading and showing
      never coincide. */
  predicate Consistent(s: AppState)
  {
    && (s.showResults <==> s.transcriptData.Some?)
    && !(s.isLoading && s.showResults)
  }

  function PhaseOf(s: AppState): Phase
    requires Consistent(s)
  {
    if s.showResults then Showing(s.transcriptData.value)
    else if s.isLoading then Uploading
    else Idle
  }

  /** Consistent states and phases correspond one to one. */
  lemma PhaseCorrespondence(s: AppState, p: Phase)
    ensures Consistent(Flags(p)) && PhaseOf(Flags(p)) == p
    ensures Consistent(s) ==> Flags(PhaseOf(s)) == s
  {
  }

  /** Each handler sets all three pieces of state, so it lands in the phase
      it names whatever the state before: upload start clears any result and
      starts loading, a received transcript is shown unchanged, a reset
      clears everything. */
  function Handle(s: AppState, e: AppEvent): (s': AppState)
    ensures Consistent(s')
    ensures PhaseOf(s') == match e
      case UploadStart => Uploading
      case TranscriptReceived(d) => Showing(d)
      case Reset => Idle
  {
    match e
    case UploadStart => s.(isLoading := true, showResults := false, transcriptData := None)
    case TranscriptReceived(data) => s.(transcriptData := Some(data), isLoading := false, showResults := true)
    case Reset => s.(transcriptData := None, isLoading := false, showResults := false)
  }

  /** The state after a sequence of handler calls. */
  function Run(s: AppState, events: seq<AppEvent>): AppState
    decreases |events|
  {
    if events == [] then s else Run(Handle(s, events[0]), events[1..])
  }

  /** Every state reachable from a consistent one (the initial state is
      `Flags(Idle)`) is consistent: results are shown only with data
      present, and loading and showing never coincide. */
  lemma {:induction false} ReachableConsistent(s: AppState, events: seq<AppEvent>)
    requires Consistent(s)
    ensures Consistent(Run(s, events))
    ensures Run(s, events).showResults ==> Run(s, events).transcriptData.Some?
    ensures !(Run(s, events).isLoading && Run(s, events).showResults)
    decreases |events|
  {
    if events != [] {
      ReachableConsistent(Handle(s, events[0]), events[1..]);
    }
  }

  /** `!showResults && <HeroSection />`. */
  predicate HeroShown(s: AppState)
  {
    !s.showResults
  }

  /** `showResults && transcriptData && (...)`. */
  predicate ResultsShown(s: AppState)
  {
    s.showResults && s.transcriptData.Some?
  }

  /** In a consistent state exactly one of the hero and the results panel
      renders, and the panel renders exactly in the showing phase. */
  lemma ExactlyOnePanel(s: AppState)
    requires Consistent(s)
    ensures HeroShown(s) != ResultsShown(s)
    ensures ResultsShown(s) <==> PhaseOf(s).Showing?
  {
  }

  /** The effect keyed on `showResults` runs after a render in which the
      flag changed, and asks for a scroll only when the new value is true.
      (At mount it runs with `showResults` false and asks for nothing.) */
  predicate ScrollRequested(before: AppState, after: AppState)
  {
    before.showResults != after.showResults && after.showResults
  }

  /** A scroll is requested exactly when a transcript arrives while no
      result is shown: once per entry into the showing phase. */
  lemma ScrollOncePerEntry(s: AppState, e: AppEvent)
    requires Consistent(s)
    ensures ScrollRequested(s, Handle(s, e)) <==> e.TranscriptReceived? && !PhaseOf(s).Showing?
  {
  }
}
