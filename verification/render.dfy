/** The transcript view's pure helpers: the `m:ss` clock, the speaker
    palette with its gray fallback, the speaker badge label, the per-speaker
    cards and the body of the downloadable markdown file. `parseFloat` is a
    parameter: `None` stands for `NaN`. */
module Render {
  import opened Wrappers
  import opened Text
  import opened Transcript

  // ---------------------------------------------------------------------
  // The clock

  /** JavaScript's truncation of a number toward zero. */
  function Trunc(x: real): int
  {
    if x >= 0.0 then x.Floor else -((-x).Floor)
  }

  /** JavaScript's `%` on numbers: the remainder takes the dividend's sign. */
  function JsRem(x: real, m: real): real
    requires m != 0.0
  {
    x - m * (Trunc(x / m) as real)
  }

  /** For a non-negative time, `Math.floor(t / 60)` and
      `Math.floor(t % 60)` are the whole minutes and the leftover whole
      seconds of `Math.floor(t)`. */
  lemma ClockParts(t: real)
    ensures t >= 0.0 ==> (t / 60.0).Floor == t.Floor / 60 && JsRem(t, 60.0).Floor == t.Floor % 60
  {
    if t >= 0.0 {
      var n := t.Floor;
      var q := n / 60;
      assert q as real * 60.0 <= n as real <= t < (n + 1) as real <= (q + 1) as real * 60.0;
      assert (t / 60.0).Floor == q;
      assert Trunc(t / 60.0) == q;
      assert JsRem(t, 60.0) == t - 60.0 * q as real;
    }
  }

  /** A number of seconds below a minute, padded to two digits. */
  lemma TwoDigitSeconds(s: int)
    requires 0 <= s < 60
    ensures PadStart(IntToString(s), 2, '0') == [DigitChar(s / 10), DigitChar(s % 10)]
  {
    if s < 10 {
      assert IntToString(s) == [DigitChar(s)];
    } else {
      assert NatToString(s / 10) == [DigitChar(s / 10)];
    }
  }

  /** The clock text of `mins` whole minutes and `secs` leftover seconds:
      the minutes in decimal, a colon, the seconds as exactly two digits. */
  function Clock(mins: nat, secs: int): string
    requires 0 <= secs < 60
  {
    NatToString(mins) + ":" + [DigitChar(secs / 10), DigitChar(secs % 10)]
  }

  /** The arithmetic of `formatTime` on a parsed number. A non-negative time
      renders as the clock of its whole minutes and leftover whole seconds;
      negative times follow the same JavaScript arithmetic. */
  function JsClock(totalSeconds: real): (r: string)
    ensures totalSeconds >= 0.0 ==> r == Clock(totalSeconds.Floor / 60, totalSeconds.Floor % 60)
  {
    var mins := (totalSeconds / 60.0).Floor;
    var secs := JsRem(totalSeconds, 60.0).Floor;
    var r := IntToString(mins) + ":" + PadStart(IntToString(secs), 2, '0');
    ClockParts(totalSeconds);
    if totalSeconds >= 0.0 then TwoDigitSeconds(secs); r else r
  }

  /** `formatTime`: `NaN` renders as `0:00`; a non-negative time renders as
      the clock of its whole minutes and leftover whole seconds. */
  function FormatTime(seconds: string, parseFloat: string -> Option<real>): (r: string)
    ensures parseFloat(seconds).None? ==> r == "0:00"
    ensures parseFloat(seconds).Some? && parseFloat(seconds).value >= 0.0 ==>
      var whole := parseFloat(seconds).value.Floor;
      r == Clock(whole / 60, whole % 60)
  {
    match parseFloat(seconds)
    case None => "0:00"
    case Some(totalSeconds) => JsClock(totalSeconds)
  }

  /** Reads an `m:ss` clock back to whole seconds. */
  function ParseClock(r: string): Option<int>
  {
    if |r| >= 4 && r[|r| - 3] == ':' && AllDigits(r[..|r| - 3]) && AllDigits(r[|r| - 2..])
    then Some(DigitsValue(r[..|r| - 3]) * 60 + DigitsValue(r[|r| - 2..]))
    else None
  }

  /** A non-negative time's clock reads back as its whole seconds, and its
      seconds field is below 60. */
  lemma FormatTimeRoundTrip(seconds: string, parseFloat: string -> Option<real>)
    requires parseFloat(seconds).Some? && parseFloat(seconds).value >= 0.0
    ensures var r := FormatTime(seconds, parseFloat);
      && |r| >= 4
      && AllDigits(r[|r| - 2..]) && DigitsValue(r[|r| - 2..]) < 60
      && ParseClock(r) == Some(parseFloat(seconds).value.Floor)
  {
    ClockRoundTrip(parseFloat(seconds).value.Floor);
  }

  /** The clock of a number of whole seconds reads back as that number. */
  lemma ClockRoundTrip(whole: nat)
    ensures var r := Clock(whole / 60, whole % 60);
      && |r| >= 4
      && AllDigits(r[|r| - 2..]) && DigitsValue(r[|r| - 2..]) < 60
      && ParseClock(r) == Some(whole)
  {
    ClockReadBack(whole / 60, whole % 60);
  }

  /** Two digits read back as the number they were made from. */
  lemma TwoDigitsValue(hi: int, lo: int)
    requires 0 <= hi < 10 && 0 <= lo < 10
    ensures AllDigits([DigitChar(hi), DigitChar(lo)])
    ensures DigitsValue([DigitChar(hi), DigitChar(lo)]) == hi * 10 + lo
  {
    var ss := [DigitChar(hi), DigitChar(lo)];
    var first := [DigitChar(hi)];
    assert ss[..1] == first && first[..0] == [];
    assert DigitsValue(first) == DigitsValue([]) * 10 + hi;
    assert DigitsValue(ss) == DigitsValue(first) * 10 + lo;
  }

  /** The clock of `mins` minutes and `secs` seconds reads back. */
  lemma ClockReadBack(mins: nat, secs: int)
    requires 0 <= secs < 60
    ensures var r := Clock(mins, secs);
      && |r| >= 4
      && AllDigits(r[|r| - 2..]) && DigitsValue(r[|r| - 2..]) < 60
      && ParseClock(r) == Some(mins * 60 + secs)
  {
    var m := NatToString(mins);
    var ss := [DigitChar(secs / 10), DigitChar(secs % 10)];
    var r := Clock(mins, secs);
    assert r == m + ":" + ss;
    assert r[..|r| - 3] == m;
    assert r[|r| - 2..] == ss;
    assert r[|r| - 3] == ':';
    NatToStringRoundTrip(mins);
    TwoDigitsValue(secs / 10, secs % 10);
  }

  /** A negative time gives a clock with negative fields: -30 seconds
      renders as `-1:-30`. */
  lemma NegativeTime(seconds: string, parseFloat: string -> Option<real>)
    requires parseFloat(seconds) == Some(-30.0)
    ensures FormatTime(seconds, parseFloat) == "-1:-30"
  {
    assert (-30.0 / 60.0).Floor == -1;
    assert Trunc(-30.0 / 60.0) == 0;
    assert JsRem(-30.0, 60.0).Floor == -30;
    assert NatToString(30) == ['3', '0'];
    assert NatToString(1) == ['1'];
  }

  // ---------------------------------------------------------------------
  // The speaker palette

  /** `speakerColors`. */
  const SpeakerColors: map<string, string> := map[
    "SPEAKER_00" := "border-blue-500",
    "SPEAKER_01" := "border-purple-500",
    "SPEAKER_02" := "border-green-500",
    "SPEAKER_03" := "border-orange-500",
    "SPEAKER_04" := "border-pink-500",
    "SPEAKER_05" := "border-cyan-500"]

  /** `speakerBgColors`. */
  const SpeakerBgColors: map<string, string> := map[
    "SPEAKER_00" := "bg-blue-500",
    "SPEAKER_01" := "bg-purple-500",
    "SPEAKER_02" := "bg-green-500",
    "SPEAKER_03" := "bg-orange-500",
    "SPEAKER_04" := "bg-pink-500",
    "SPEAKER_05" := "bg-cyan-500"]

  /** `table[key] || fallback`: a missing key or an empty (falsy) class falls
      back. */
  function LookupOr(table: map<string, string>, key: string, fallback: string): string
  {
    if key in table && table[key] != "" then table[key] else fallback
  }

  function BorderColor(speaker: string): string
  {
    LookupOr(SpeakerColors, speaker, "border-gray-500")
  }

  function BgColor(speaker: string): string
  {
    LookupOr(SpeakerBgColors, speaker, "bg-gray-500")
  }

  /** The palette entry of a speaker as one table: `SPEAKER_00` to
      `SPEAKER_05` take the six hues in order, every other label is gray. */
  function Hue(speaker: string): string
  {
    if speaker == "SPEAKER_00" then "blue"
    else if speaker == "SPEAKER_01" then "purple"
    else if speaker == "SPEAKER_02" then "green"
    else if speaker == "SPEAKER_03" then "orange"
    else if speaker == "SPEAKER_04" then "pink"
    else if speaker == "SPEAKER_05" then "cyan"
    else "gray"
  }

  /** The two tables agree with the palette: border and background of a
      speaker always come from the same palette entry, and every speaker
      outside the palette gets gray for both. */
  lemma PaletteAgrees(speaker: string)
    ensures BorderColor(speaker) == "border-" + Hue(speaker) + "-500"
    ensures BgColor(speaker) == "bg-" + Hue(speaker) + "-500"
  {
    if speaker == "SPEAKER_00" {
      PaletteEntry00();
    } else if speaker == "SPEAKER_01" {
      PaletteEntry01();
    } else if speaker == "SPEAKER_02" {
      PaletteEntry02();
    } else if speaker == "SPEAKER_03" {
      PaletteEntry03();
    } else if speaker == "SPEAKER_04" {
      PaletteEntry04();
    } else if speaker == "SPEAKER_05" {
      PaletteEntry05();
    } else {
      assert speaker !in SpeakerColors && speaker !in SpeakerBgColors;
      assert "border-" + "gray" + "-500" == "border-gray-500" && "bg-" + "gray" + "-500" == "bg-gray-500";
    }
  }

  // One lemma per palette entry keeps each comparison of literals small.

  lemma PaletteEntry00()
    ensures BorderColor("SPEAKER_00") == "border-" + Hue("SPEAKER_00") + "-500"
    ensures BgColor("SPEAKER_00") == "bg-" + Hue("SPEAKER_00") + "-500"
  {
    assert Hue("SPEAKER_00") == "blue";
    assert "border-" + "blue" + "-500" == "border-blue-500" && "bg-" + "blue" + "-500" == "bg-blue-500";
  }

  lemma PaletteEntry01()
    ensures BorderColor("SPEAKER_01") == "border-" + Hue("SPEAKER_01") + "-500"
    ensures BgColor("SPEAKER_01") == "bg-" + Hue("SPEAKER_01") + "-500"
  {
    assert Hue("SPEAKER_01") == "purple";
    assert "border-" + "purple" + "-500" == "border-purple-500" && "bg-" + "purple" + "-500" == "bg-purple-500";
  }

  lemma PaletteEntry02()
    ensures BorderColor("SPEAKER_02") == "border-" + Hue("SPEAKER_02") + "-500"
    ensures BgColor("SPEAKER_02") == "bg-" + Hue("SPEAKER_02") + "-500"
  {
    assert Hue("SPEAKER_02") == "green";
    assert "border-" + "green" + "-500" == "border-green-500" && "bg-" + "green" + "-500" == "bg-green-500";
  }

  lemma PaletteEntry03()
    ensures BorderColor("SPEAKER_03") == "border-" + Hue("SPEAKER_03") + "-500"
    ensures BgColor("SPEAKER_03") == "bg-" + Hue("SPEAKER_03") + "-500"
  {
    assert Hue("SPEAKER_03") == "orange";
    assert "border-" + "orange" + "-500" == "border-orange-500" && "bg-" + "orange" + "-500" == "bg-orange-500";
  }

  lemma PaletteEntry04()
    ensures BorderColor("SPEAKER_04") == "border-" + Hue("SPEAKER_04") + "-500"
    ensures BgColor("SPEAKER_04") == "bg-" + Hue("SPEAKER_04") + "-500"
  {
    assert Hue("SPEAKER_04") == "pink";
    assert "border-" + "pink" + "-500" == "border-pink-500" && "bg-" + "pink" + "-500" == "bg-pink-500";
  }

  lemma PaletteEntry05()
    ensures BorderColor("SPEAKER_05") == "border-" + Hue("SPEAKER_05") + "-500"
    ensures BgColor("SPEAKER_05") == "bg-" + Hue("SPEAKER_05") + "-500"
  {
    assert Hue("SPEAKER_05") == "cyan";
    assert "border-" + "cyan" + "-500" == "border-cyan-500" && "bg-" + "cyan" + "-500" == "bg-cyan-500";
  }

  // ---------------------------------------------------------------------
  // The speaker badge

  /** The position of the first `c` in `s`, if any. */
  function FirstIndexOf(s: string, c: char): (r: Option<nat>)
    ensures r.None? <==> c !in s
    ensures r.Some? ==> r.value < |s| && s[r.value] == c && c !in s[..r.value]
  {
    if s == [] then None
    else if s[0] == c then Some(0)
    else
      match FirstIndexOf(s[1..], c)
      case None => None
      case Some(i) =>
        assert s[..i + 1] == [s[0]] + s[1..][..i];
        Some(i + 1)
  }

  /** `s.replace(from, to)` with one-character strings: only the first
      occurrence of `from` is replaced; every other character is kept. */
  function ReplaceFirst(s: string, from: char, to: char): (r: string)
    ensures |r| == |s|
    ensures FirstIndexOf(s, from).None? ==> r == s
    ensures FirstIndexOf(s, from).Some? ==>
      var i := FirstIndexOf(s, from).value;
      r[i] == to && forall j :: 0 <= j < |s| && j != i ==> r[j] == s[j]
  {
    if s == [] then []
    else if s[0] == from then [to] + s[1..]
    else [s[0]] + ReplaceFirst(s[1..], from, to)
  }

  /** The badge text: the first underscore of the label becomes a space. */
  function SpeakerLabel(speaker: string): string
  {
    ReplaceFirst(speaker, '_', ' ')
  }

  /** A badge keeps every underscore after the first one. */
  lemma SpeakerLabelKeepsLaterUnderscores(speaker: string, j: int)
    requires 0 <= j < |speaker| && speaker[j] == '_'
    requires FirstIndexOf(speaker, '_') != Some(j)
    ensures SpeakerLabel(speaker)[j] == '_'
  {
  }

  // ---------------------------------------------------------------------
  // The per-speaker view and the download

  /** `start - end` as shown on a card and in the download. */
  function TimeRange(seg: SpeakerSegment, parseFloat: string -> Option<real>): string
  {
    FormatTime(seg.start, parseFloat) + " - " + FormatTime(seg.end, parseFloat)
  }

  /** What one card of the per-speaker tab shows. */
  datatype SpeakerCard = SpeakerCard(borderColor: string, bgColor: string, badge: string, timeRange: string, text: string)

  /** The per-speaker tab: one card per segment, in the order received. */
  function SpeakerCards(segments: seq<SpeakerSegment>, parseFloat: string -> Option<real>): (cards: seq<SpeakerCard>)
    ensures |cards| == |segments|
    ensures forall i :: 0 <= i < |segments| ==>
      && cards[i].borderColor == "border-" + Hue(segments[i].speaker) + "-500"
      && cards[i].bgColor == "bg-" + Hue(segments[i].speaker) + "-500"
      && cards[i].badge == SpeakerLabel(segments[i].speaker)
      && cards[i].timeRange == TimeRange(segments[i], parseFloat)
      && cards[i].text == segments[i].text
  {
    var cards := seq(|segments|, i requires 0 <= i < |segments| =>
      var seg := segments[i];
      SpeakerCard(BorderColor(seg.speaker), BgColor(seg.speaker), SpeakerLabel(seg.speaker),
                  TimeRange(seg, parseFloat), seg.text));
    assert forall i :: 0 <= i < |segments| ==>
      (cards[i].borderColor == "border-" + Hue(segments[i].speaker) + "-500"
       && cards[i].bgColor == "bg-" + Hue(segments[i].speaker) + "-500") by {
      forall i | 0 <= i < |segments| {
        PaletteAgrees(segments[i].speaker);
      }
    }
    cards
  }

  /** A time under a minute renders as `0:ss`. */
  lemma UnderAMinute(seconds: string, parseFloat: string -> Option<real>, whole: int)
    requires parseFloat(seconds).Some? && 0.0 <= parseFloat(seconds).value
    requires parseFloat(seconds).value.Floor == whole < 60
    ensures FormatTime(seconds, parseFloat) == ['0', ':', DigitChar(whole / 10), DigitChar(whole % 10)]
  {
    ClockUnderAMinute(whole);
  }

  lemma ClockUnderAMinute(secs: nat)
    requires secs < 60
    ensures Clock(secs / 60, secs % 60) == ['0', ':', DigitChar(secs / 10), DigitChar(secs % 10)]
  {
    assert secs / 60 == 0 && secs % 60 == secs;
    assert NatToString(0) == ['0'];
  }

  /** The time label of a segment from 1.5 to 3.0 seconds is
      `0:01 - 0:03`. */
  lemma TimeRangeExample(parseFloat: string -> Option<real>)
    requires parseFloat("1.5") == Some(1.5) && parseFloat("3.0") == Some(3.0)
    ensures TimeRange(SpeakerSegment("SPEAKER_01", "1.5", "3.0", "world"), parseFloat) == "0:01 - 0:03"
  {
    UnderAMinute("1.5", parseFloat, 1);
    UnderAMinute("3.0", parseFloat, 3);
    assert DigitChar(0) == '0' && DigitChar(1) == '1' && DigitChar(3) == '3';
    assert FormatTime("1.5", parseFloat) == "0:01" && FormatTime("3.0", parseFloat) == "0:03";
  }

  const DownloadHeader: string := "# Transkrip Lengkap EchoScribe\n\n"

  /** The date line; the localised date itself is an input. */
  function DateLine(date: string): string
  {
    "Tanggal: " + date + "\n\n---\n\n"
  }

  /** The first line of a segment's block: bold speaker and bracketed time
      range. */
  function BlockHeading(seg: SpeakerSegment, parseFloat: string -> Option<real>): string
  {
    "**" + seg.speaker + "** [" + TimeRange(seg, parseFloat) + "]\n"
  }

  /** The block of one segment: its heading line, then its text and a
      blank line. */
  function DownloadBlock(parseFloat: string -> Option<real>): SpeakerSegment -> string
  {
    (seg: SpeakerSegment) => BlockHeading(seg, parseFloat) + (seg.text + "\n\n")
  }

  /** What precedes the blocks: the header and the date line. */
  function Preamble(date: string): string
  {
    DownloadHeader + DateLine(date)
  }

  /** The markdown file: header, date line, then one block per segment in
      input order, and nothing else. */
  function DownloadBody(date: string, segments: seq<SpeakerSegment>, parseFloat: string -> Option<real>): string
  {
    Preamble(date) + ConcatMap(DownloadBlock(parseFloat), segments)
  }

  /** Segment `k`'s block sits right after the blocks of the segments before
      it, which follow the header and the date line. */
  lemma DownloadBlockAt(date: string, segments: seq<SpeakerSegment>, parseFloat: string -> Option<real>, k: int)
    requires 0 <= k < |segments|
    ensures DownloadBody(date, segments, parseFloat)
         == DownloadBody(date, segments[..k], parseFloat)
            + DownloadBlock(parseFloat)(segments[k])
            + ConcatMap(DownloadBlock(parseFloat), segments[k + 1..])
  {
    var f := DownloadBlock(parseFloat);
    ConcatMapAt(f, segments, k);
    var before, rest := ConcatMap(f, segments[..k]), ConcatMap(f, segments[k + 1..]);
    AppendAssoc(Preamble(date), before + f(segments[k]), rest);
    AppendAssoc(Preamble(date), before, f(segments[k]));
  }

  /** Covering one more segment appends exactly that segment's block. */
  lemma DownloadStep(date: string, segments: seq<SpeakerSegment>, parseFloat: string -> Option<real>, i: int)
    requires 0 <= i < |segments|
    ensures DownloadBody(date, segments[..i + 1], parseFloat)
         == DownloadBody(date, segments[..i], parseFloat) + DownloadBlock(parseFloat)(segments[i])
  {
    var f := DownloadBlock(parseFloat);
    assert segments[..i + 1] == segments[..i] + [segments[i]];
    ConcatMapSnoc(f, segments[..i], segments[i]);
    AppendAssoc(Preamble(date), ConcatMap(f, segments[..i]), f(segments[i]));
  }

  /** The string-building loop of `handleDownloadTranscript`. */
  method BuildDownload(date: string, speakerTranscript: seq<SpeakerSegment>, parseFloat: string -> Option<real>)
    returns (content: string)
    ensures content == DownloadBody(date, speakerTranscript, parseFloat)
    ensures content[..|DownloadHeader|] == DownloadHeader
  {
    content := "# Transkrip Lengkap EchoScribe\n\n";
    content := content + ("Tanggal: " + date + "\n\n---\n\n");
    assert content == Preamble(date) + ConcatMap(DownloadBlock(parseFloat), speakerTranscript[..0]);
    for i := 0 to |speakerTranscript|
      invariant content == DownloadBody(date, speakerTranscript[..i], parseFloat)
    {
      var item := speakerTranscript[i];
      ghost var before := content;
      content := content + BlockHeading(item, parseFloat);
      content := content + (item.text + "\n\n");
      AppendAssoc(before, BlockHeading(item, parseFloat), item.text + "\n\n");
      assert content == before + DownloadBlock(parseFloat)(item);
      DownloadStep(date, speakerTranscript, parseFloat, i);
    }
    assert speakerTranscript[..|speakerTranscript|] == speakerTranscript;
  }
}
