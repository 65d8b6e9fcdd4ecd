/** The records exchanged between the backend and the browser: one speaker
    segment per diarization turn that caught words, and the full response of
    the transcription endpoint. */
module Transcript {

  /** One entry of `speaker_transcript`. The backend renders `start` and
      `end` as text with two decimals; the browser parses them back. */
  datatype SpeakerSegment = SpeakerSegment(speaker: string, start: string, end: string, text: string)

  /** The response body: `full_transcript`, `speaker_transcript`, `summary`. */
  datatype TranscriptData = TranscriptData(
    fullTranscript: string,
    speakerTranscript: seq<SpeakerSegment>,
    summary: string)
}
