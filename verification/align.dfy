/** The backend's merge of speech recognition and speaker diarization: every
    diarization turn gathers the recognised words that start inside it, and
    the resulting speaker segments are flattened into the prompt transcript
    handed to the summariser. Turns and words are inputs; the recognition
    and diarization models themselves are not modelled, and the two-decimal
    rendering of a time is the parameter `fmt`. */
module Align {
  import opened Wrappers
  import opened Text
  import opened Selection
  import opened Transcript

  /** One recognised word with its start time in seconds. */
  datatype Word = Word(start: real, word: string)

  /** One recognition segment: its words, in spoken order. */
  datatype WhisperSegment = WhisperSegment(words: seq<Word>)

  /** One diarization turn: the half-open interval `[start, end)` and the
      speaker label attached to it. */
  datatype Turn = Turn(start: real, end: real, speaker: string)

  /** A word belongs to a turn when it starts inside the turn's half-open
      interval; a word starting exactly at the turn's end does not. */
  predicate InTurn(t: Turn, w: Word)
  {
    t.start <= w.start < t.end
  }

  // ---------------------------------------------------------------------
  // Recognition order

  /** All words in recognition order: segment by segment, and word by word
      within a segment. */
  function Flatten(segments: seq<WhisperSegment>): (ws: seq<Word>)
  {
    if segments == [] then [] else segments[0].words + Flatten(segments[1..])
  }

  lemma {:induction false} FlattenAppend(a: seq<WhisperSegment>, b: seq<WhisperSegment>)
    ensures Flatten(a + b) == Flatten(a) + Flatten(b)
  {
    if a == [] {
      assert a + b == b;
    } else {
      assert (a + b)[1..] == a[1..] + b;
      FlattenAppend(a[1..], b);
    }
  }

  /** Position in `Flatten(segments)` of the first word of `segments[j]`. */
  function Offset(segments: seq<WhisperSegment>, j: int): nat
    requires 0 <= j <= |segments|
  {
    |Flatten(segments[..j])|
  }

  /** Word `k` of segment `j` sits at `Offset(segments, j) + k`, and the
      words of segment `j` end where those of segment `j + 1` begin. */
  lemma FlattenAt(segments: seq<WhisperSegment>, j: int, k: int)
    requires 0 <= j < |segments| && 0 <= k < |segments[j].words|
    ensures Offset(segments, j) + |segments[j].words| == Offset(segments, j + 1)
    ensures Offset(segments, j) + k < |Flatten(segments)|
    ensures Flatten(segments)[Offset(segments, j) + k] == segments[j].words[k]
  {
    FlattenStep(segments, j);
    var front, back := segments[..j + 1], segments[j + 1..];
    assert segments == front + back;
    FlattenAppend(front, back);
    var before := Flatten(segments[..j]);
    assert Flatten(segments) == before + segments[j].words + Flatten(back);
    assert (before + segments[j].words + Flatten(back))[|before| + k] == segments[j].words[k];
  }

  /** Segment order first, then word order: word `k` of segment `j` comes
      before word `k'` of segment `j'` whenever `(j, k)` precedes `(j', k')`
      lexicographically. */
  lemma FlattenOrder(segments: seq<WhisperSegment>, j: int, k: int, j': int, k': int)
    requires 0 <= j < |segments| && 0 <= k < |segments[j].words|
    requires 0 <= j' < |segments| && 0 <= k' < |segments[j'].words|
    requires j < j' || (j == j' && k < k')
    ensures Offset(segments, j) + k < Offset(segments, j') + k'
  {
    FlattenAt(segments, j, k);
    if j < j' {
      assert segments[..j'] == segments[..j + 1] + segments[j + 1..j'];
      FlattenAppend(segments[..j + 1], segments[j + 1..j']);
    }
  }

  // ---------------------------------------------------------------------
  // The merge

  /** The text a turn collects from a word: the word's text when it starts
      inside the turn, nothing otherwise. */
  function Collect(t: Turn): Word -> Option<string>
  {
    w => if InTurn(t, w) then Some(w.word) else None
  }

  /** The words turn `t` collects, in recognition order. */
  function TurnWords(t: Turn, words: seq<Word>): seq<string>
  {
    FilterMap(Collect(t), words)
  }

  /** The speaker segment a turn yields: the turn's own speaker and times,
      with the stripped concatenation of its words; `None` when the turn
      caught no word. */
  function Entry(words: seq<Word>, fmt: real -> string): Turn -> Option<SpeakerSegment>
  {
    t =>
      var caught := TurnWords(t, words);
      if caught == [] then None
      else Some(SpeakerSegment(t.speaker, fmt(t.start), fmt(t.end), Strip(Concat(caught))))
  }

  /** The speaker transcript: one entry per turn that caught a word, in turn
      order. Every turn scans all words on its own. */
  function Merge(turns: seq<Turn>, segments: seq<WhisperSegment>, fmt: real -> string): (out: seq<SpeakerSegment>)
    ensures |out| <= |turns|
  {
    FilterMap(Entry(Flatten(segments), fmt), turns)
  }

  /** Inclusion: a word that starts inside `t` is collected, at the position
      given by the number of collected words before it. */
  lemma WordCollected(t: Turn, words: seq<Word>, i: int)
    requires 0 <= i < |words| && InTurn(t, words[i])
    ensures Rank(Collect(t), words, i) < |TurnWords(t, words)|
    ensures TurnWords(t, words)[Rank(Collect(t), words, i)] == words[i].word
  {
    FilterMapAt(Collect(t), words, i);
  }

  /** Exclusion: every collected text is the text of a word that starts
      inside `t`; a word starting before `t.start` or at or after `t.end`
      contributes nothing. */
  lemma CollectedWordSource(t: Turn, words: seq<Word>, k: int) returns (i: int)
    requires 0 <= k < |TurnWords(t, words)|
    ensures 0 <= i < |words| && InTurn(t, words[i])
    ensures Rank(Collect(t), words, i) == k
    ensures TurnWords(t, words)[k] == words[i].word
  {
    i := FilterMapSource(Collect(t), words, k);
  }

  /** Order: of two collected words, the earlier in recognition order comes
      first in the turn's text. */
  lemma CollectedInOrder(t: Turn, words: seq<Word>, i: int, j: int)
    requires 0 <= i < j < |words| && InTurn(t, words[i]) && InTurn(t, words[j])
    ensures Rank(Collect(t), words, i) < Rank(Collect(t), words, j)
  {
    RankIncreases(Collect(t), words, i, j);
  }

  /** A turn yields an entry exactly when at least one word starts inside it. */
  lemma EntryIffCaught(t: Turn, words: seq<Word>, fmt: real -> string)
    ensures Entry(words, fmt)(t).Some? <==> exists i :: 0 <= i < |words| && InTurn(t, words[i])
  {
    FilterMapEmpty(Collect(t), words);
    if TurnWords(t, words) == [] {
      forall i | 0 <= i < |words|
        ensures !InTurn(t, words[i])
      {
        assert Collect(t)(words[i]).None?;
      }
    } else {
      var i :| 0 <= i < |words| && Collect(t)(words[i]).Some?;
      assert InTurn(t, words[i]);
    }
  }

  /** Every entry of the output comes from one turn that caught a word: the
      entry's speaker, start and end are the turn's (never the words'), and
      its text is the stripped concatenation of the turn's words. */
  lemma MergeEntrySource(turns: seq<Turn>, segments: seq<WhisperSegment>, fmt: real -> string, k: int)
    returns (j: int)
    requires 0 <= k < |Merge(turns, segments, fmt)|
    ensures 0 <= j < |turns| && Rank(Entry(Flatten(segments), fmt), turns, j) == k
    ensures exists i :: 0 <= i < |Flatten(segments)| && InTurn(turns[j], Flatten(segments)[i])
    ensures var e := Merge(turns, segments, fmt)[k];
      && e.speaker == turns[j].speaker
      && e.start == fmt(turns[j].start)
      && e.end == fmt(turns[j].end)
      && e.text == Strip(Concat(TurnWords(turns[j], Flatten(segments))))
  {
    j := FilterMapSource(Entry(Flatten(segments), fmt), turns, k);
    EntryIffCaught(turns[j], Flatten(segments), fmt);
  }

  /** Every turn that caught a word has its entry in the output, at the
      position given by the number of productive turns before it. */
  lemma MergeKeepsProductiveTurn(turns: seq<Turn>, segments: seq<WhisperSegment>, fmt: real -> string, j: int, i: int)
    requires 0 <= j < |turns| && 0 <= i < |Flatten(segments)| && InTurn(turns[j], Flatten(segments)[i])
    ensures Rank(Entry(Flatten(segments), fmt), turns, j) < |Merge(turns, segments, fmt)|
    ensures Merge(turns, segments, fmt)[Rank(Entry(Flatten(segments), fmt), turns, j)]
         == SpeakerSegment(turns[j].speaker, fmt(turns[j].start), fmt(turns[j].end),
                           Strip(Concat(TurnWords(turns[j], Flatten(segments)))))
  {
    EntryIffCaught(turns[j], Flatten(segments), fmt);
    FilterMapAt(Entry(Flatten(segments), fmt), turns, j);
  }

  /** Output entries follow diarization turn order. */
  lemma MergeInTurnOrder(turns: seq<Turn>, segments: seq<WhisperSegment>, fmt: real -> string, j: int, j': int)
    requires 0 <= j < j' < |turns|
    requires exists i :: 0 <= i < |Flatten(segments)| && InTurn(turns[j], Flatten(segments)[i])
    ensures Rank(Entry(Flatten(segments), fmt), turns, j) < Rank(Entry(Flatten(segments), fmt), turns, j')
  {
    EntryIffCaught(turns[j], Flatten(segments), fmt);
    RankIncreases(Entry(Flatten(segments), fmt), turns, j, j');
  }

  // ---------------------------------------------------------------------
  // Disjoint and overlapping turns

  function Max(a: real, b: real): real
  {
    if a < b then b else a
  }

  function Min(a: real, b: real): real
  {
    if a < b then a else b
  }

  /** Two turns overlap when some instant lies in both half-open intervals. */
  predicate Overlap(a: Turn, b: Turn)
  {
    Max(a.start, b.start) < Min(a.end, b.end)
  }

  predicate PairwiseDisjoint(turns: seq<Turn>)
  {
    forall i, j :: 0 <= i < j < |turns| ==> !Overlap(turns[i], turns[j])
  }

  /** How many turns collect word `w`. */
  function Hits(turns: seq<Turn>, w: Word): nat
  {
    if turns == [] then 0 else (if InTurn(turns[0], w) then 1 else 0) + Hits(turns[1..], w)
  }

  /** How many words all turns together collect. */
  function CaughtTotal(turns: seq<Turn>, words: seq<Word>): nat
  {
    if turns == [] then 0 else |TurnWords(turns[0], words)| + CaughtTotal(turns[1..], words)
  }

  /** With pairwise disjoint turns, no word is collected by two turns. */
  lemma {:induction false} DisjointHitsAtMostOnce(turns: seq<Turn>, w: Word)
    requires PairwiseDisjoint(turns)
    ensures Hits(turns, w) <= 1
  {
    if turns != [] {
      assert PairwiseDisjoint(turns[1..]) by {
        forall i, j | 0 <= i < j < |turns[1..]|
          ensures !Overlap(turns[1..][i], turns[1..][j])
        {
          assert turns[1..][i] == turns[i + 1] && turns[1..][j] == turns[j + 1];
        }
      }
      DisjointHitsAtMostOnce(turns[1..], w);
      if InTurn(turns[0], w) {
        forall j | 0 <= j < |turns[1..]|
          ensures !InTurn(turns[1..][j], w)
        {
          assert turns[1..][j] == turns[j + 1];
          assert !Overlap(turns[0], turns[j + 1]);
        }
        NoHits(turns[1..], w);
      }
    }
  }

  lemma {:induction false} NoHits(turns: seq<Turn>, w: Word)
    requires forall j :: 0 <= j < |turns| ==> !InTurn(turns[j], w)
    ensures Hits(turns, w) == 0
  {
    if turns != [] {
      assert forall j :: 0 <= j < |turns[1..]| ==> turns[1..][j] == turns[j + 1];
      NoHits(turns[1..], w);
    }
  }

  /** Scanning one more word adds exactly the number of turns that collect it. */
  lemma {:induction false} CaughtTotalCons(turns: seq<Turn>, w: Word, rest: seq<Word>)
    ensures CaughtTotal(turns, [w] + rest) == Hits(turns, w) + CaughtTotal(turns, rest)
  {
    if turns != [] {
      assert ([w] + rest)[1..] == rest;
      CaughtTotalCons(turns[1..], w, rest);
    }
  }

  /** With pairwise disjoint turns every word lands in at most one entry, so
      all entries together hold at most as many words as were recognised. */
  lemma {:induction false} DisjointTurnsUseEachWordOnce(turns: seq<Turn>, words: seq<Word>)
    requires PairwiseDisjoint(turns)
    ensures CaughtTotal(turns, words) <= |words|
  {
    if words == [] {
      NoCatch(turns);
    } else {
      assert words == [words[0]] + words[1..];
      CaughtTotalCons(turns, words[0], words[1..]);
      DisjointHitsAtMostOnce(turns, words[0]);
      DisjointTurnsUseEachWordOnce(turns, words[1..]);
    }
  }

  lemma {:induction false} NoCatch(turns: seq<Turn>)
    ensures CaughtTotal(turns, []) == 0
  {
    if turns != [] {
      NoCatch(turns[1..]);
    }
  }

  /** Nothing deduplicates across turns: when word `i` starts inside two
      turns, the turns overlap, both have an entry (in turn order), and each
      turn's collected text holds that word at its rank. */
  lemma OverlapRepeatsWord(turns: seq<Turn>, segments: seq<WhisperSegment>, fmt: real -> string, j1: int, j2: int, i: int)
    requires 0 <= j1 < j2 < |turns| && 0 <= i < |Flatten(segments)|
    requires InTurn(turns[j1], Flatten(segments)[i]) && InTurn(turns[j2], Flatten(segments)[i])
    ensures Overlap(turns[j1], turns[j2])
    ensures var words, entry := Flatten(segments), Entry(Flatten(segments), fmt);
      && Rank(entry, turns, j1) < Rank(entry, turns, j2) < |Merge(turns, segments, fmt)|
      && Merge(turns, segments, fmt)[Rank(entry, turns, j1)].text == Strip(Concat(TurnWords(turns[j1], words)))
      && Merge(turns, segments, fmt)[Rank(entry, turns, j2)].text == Strip(Concat(TurnWords(turns[j2], words)))
    ensures var words := Flatten(segments);
      && Rank(Collect(turns[j1]), words, i) < |TurnWords(turns[j1], words)|
      && TurnWords(turns[j1], words)[Rank(Collect(turns[j1]), words, i)] == words[i].word
      && Rank(Collect(turns[j2]), words, i) < |TurnWords(turns[j2], words)|
      && TurnWords(turns[j2], words)[Rank(Collect(turns[j2]), words, i)] == words[i].word
  {
    var words := Flatten(segments);
    MergeKeepsProductiveTurn(turns, segments, fmt, j1, i);
    MergeKeepsProductiveTurn(turns, segments, fmt, j2, i);
    MergeInTurnOrder(turns, segments, fmt, j1, j2);
    WordCollected(turns[j1], words, i);
    WordCollected(turns[j2], words, i);
  }

  /** The smallest instance: one word inside two turns makes two entries
      with the same text. */
  lemma OverlapRepeatsWordExample(t1: Turn, t2: Turn, w: Word, fmt: real -> string)
    requires InTurn(t1, w) && InTurn(t2, w)
    ensures Overlap(t1, t2)
    ensures var out := Merge([t1, t2], [WhisperSegment([w])], fmt);
      && |out| == 2
      && out[0].speaker == t1.speaker && out[1].speaker == t2.speaker
      && out[0].text == Strip(w.word) && out[1].text == Strip(w.word)
  {
    var segs := [WhisperSegment([w])];
    var words := Flatten(segs);
    assert segs[1..] == [];
    assert words == [w] + Flatten([]);
    assert TurnWords(t1, words) == [w.word] && TurnWords(t2, words) == [w.word];
    assert Concat([w.word]) == w.word + Concat([]);
    assert Concat([w.word]) == w.word;
    var f := Entry(words, fmt);
    assert f(t1).Some? && f(t2).Some?;
    assert [t1, t2][1..] == [t2] && [t2][1..] == [];
    assert FilterMap(f, [t1, t2]) == [f(t1).value] + FilterMap(f, [t2]);
    assert FilterMap(f, [t2]) == [f(t2).value] + FilterMap(f, []);
  }

  // ---------------------------------------------------------------------
  // The loop as written

  /** One more word scanned: the turn's words grow by that word's text
      exactly when it starts inside the turn. */
  lemma CollectStep(t: Turn, prefix: seq<Word>, w: Word)
    ensures TurnWords(t, prefix + [w]) == TurnWords(t, prefix) + (if InTurn(t, w) then [w.word] else [])
  {
    FilterMapAppend(Collect(t), prefix, [w]);
    assert FilterMap(Collect(t), [w]) == (if InTurn(t, w) then [w.word] else []) + FilterMap(Collect(t), []);
  }

  /** One more segment scanned: its words follow the words before it. */
  lemma FlattenStep(segments: seq<WhisperSegment>, j: int)
    requires 0 <= j < |segments|
    ensures Flatten(segments[..j + 1]) == Flatten(segments[..j]) + segments[j].words
  {
    assert segments[..j + 1] == segments[..j] + [segments[j]];
    FlattenAppend(segments[..j], [segments[j]]);
    assert Flatten([segments[j]]) == segments[j].words + Flatten([]);
  }

  /** One more turn processed: the transcript grows by that turn's entry,
      if it has one. */
  lemma MergeStep(turns: seq<Turn>, segments: seq<WhisperSegment>, fmt: real -> string, i: int)
    requires 0 <= i < |turns|
    ensures var e := Entry(Flatten(segments), fmt)(turns[i]);
      Merge(turns[..i + 1], segments, fmt) == Merge(turns[..i], segments, fmt) + (if e.Some? then [e.value] else [])
  {
    var f := Entry(Flatten(segments), fmt);
    assert turns[..i + 1] == turns[..i] + [turns[i]];
    FilterMapAppend(f, turns[..i], [turns[i]]);
    assert FilterMap(f, [turns[i]]) == (if f(turns[i]).Some? then [f(turns[i]).value] else []) + FilterMap(f, []);
  }

  /** The two inner loops of the endpoint for one turn: scan every word of
      every segment and keep those that start inside the turn. */
  method ScanTurn(turn: Turn, segments: seq<WhisperSegment>) returns (segmentWords: seq<string>)
    ensures segmentWords == TurnWords(turn, Flatten(segments))
  {
    segmentWords := [];
    for j := 0 to |segments|
      invariant segmentWords == TurnWords(turn, Flatten(segments[..j]))
    {
      var words := segments[j].words;
      ghost var before := Flatten(segments[..j]);
      assert before + words[..0] == before;
      for k := 0 to |words|
        invariant segmentWords == TurnWords(turn, before + words[..k])
      {
        var wordStart := words[k].start;
        CollectStep(turn, before + words[..k], words[k]);
        assert before + words[..k + 1] == before + words[..k] + [words[k]];
        if turn.start <= wordStart < turn.end {
          segmentWords := segmentWords + [words[k].word];
        }
      }
      assert words[..|words|] == words;
      FlattenStep(segments, j);
    }
    assert segments[..|segments|] == segments;
  }

  /** The nested loops of the endpoint: for each turn, scan every word of
      every segment, collect those inside the turn, and append an entry when
      anything was collected. */
  method MergeLoop(turns: seq<Turn>, segments: seq<WhisperSegment>, fmt: real -> string)
    returns (finalTranscript: seq<SpeakerSegment>)
    ensures finalTranscript == Merge(turns, segments, fmt)
  {
    finalTranscript := [];
    for i := 0 to |turns|
      invariant finalTranscript == Merge(turns[..i], segments, fmt)
    {
      var turn := turns[i];
      var segmentWords := ScanTurn(turn, segments);
      if segmentWords != [] {
        finalTranscript := finalTranscript + [SpeakerSegment(turn.speaker, fmt(turn.start), fmt(turn.end), Strip(Concat(segmentWords)))];
      }
      MergeStep(turns, segments, fmt, i);
    }
    assert turns[..|turns|] == turns;
  }

  // ---------------------------------------------------------------------
  // The transcript given to the summariser

  /** One line of the prompt transcript: `speaker: text` and a newline. */
  function PromptLine(e: SpeakerSegment): string
  {
    e.speaker + ": " + e.text + "\n"
  }

  /** The prompt transcript: the lines of all entries, in output order. */
  function PromptTranscript(entries: seq<SpeakerSegment>): string
  {
    ConcatMap(PromptLine, entries)
  }

  /** Entry `k`'s line sits between the lines of the entries before it and
      those after it: nothing else is emitted and nothing is reordered. */
  lemma PromptLineAt(entries: seq<SpeakerSegment>, k: int)
    requires 0 <= k < |entries|
    ensures PromptTranscript(entries)
         == PromptTranscript(entries[..k]) + PromptLine(entries[k]) + PromptTranscript(entries[k + 1..])
  {
    ConcatMapAt(PromptLine, entries, k);
  }

  /** The prompt transcript of a concatenation is the concatenation of the
      prompt transcripts. */
  lemma PromptTranscriptAppend(a: seq<SpeakerSegment>, b: seq<SpeakerSegment>)
    ensures PromptTranscript(a + b) == PromptTranscript(a) + PromptTranscript(b)
  {
    ConcatMapAppend(PromptLine, a, b);
  }

  /** The string-building loop of the endpoint. */
  method BuildPrompt(finalTranscript: seq<SpeakerSegment>) returns (formatted: string)
    ensures formatted == PromptTranscript(finalTranscript)
  {
    formatted := "";
    for i := 0 to |finalTranscript|
      invariant formatted == PromptTranscript(finalTranscript[..i])
    {
      var item := finalTranscript[i];
      formatted := formatted + item.speaker + ": " + item.text + "\n";
      assert finalTranscript[..i + 1] == finalTranscript[..i] + [item];
      ConcatMapSnoc(PromptLine, finalTranscript[..i], item);
    }
    assert finalTranscript[..|finalTranscript|] == finalTranscript;
  }
}
