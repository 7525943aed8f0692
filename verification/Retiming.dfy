/**
 * A run that commits words out of order: a text seam whose last matched word is timed
 * earlier in the second window than in the first. Every other hypothesis holds.
 */
module Retiming {
  import opened Outcomes
  import opened Chunking
  import opened Finalizing
  import opened Streaming
  import opened Schedules
  import opened Seams

  const DECK: RawSegment := RawSegment(460, 500, ["deck"], 0.0, [WordTiming(460, 500)])

  const DECK_JOIST: RawSegment := RawSegment(10, 50, ["deck", "joist"], 0.0, [WordTiming(10, 20), WordTiming(30, 50)])

  /** Five-second windows with one second of overlap; one sample a second. */
  const RETIMED: Config := Config(1, 5.0, 1.0, 0.6, s => true,
    (fed: seq<seq<Sample>>, samples: seq<Sample>) =>
      if |fed| == 0 then Ok([DECK]) else if |fed| == 1 then Ok([DECK_JOIST]) else Ok([]))

  const AUDIO: seq<Sample> := [0.0, 0.0, 0.0, 0.0, 0.0, 0.0, 0.0, 0.0, 0.0]

  const FIRST: Window := Window(0, AUDIO[0..5], false)

  const SECOND: Window := Window(4, AUDIO[4..9], false)

  const TAIL: Window := Window(8, AUDIO[8..], true)

  const HELD: Word := Word("deck", 4600, 5000, true)

  const HEARD_AGAIN: Word := Word("deck", 4100, 4200, true)

  const NEXT: Word := Word("joist", 4300, 4500, true)

  lemma AudioWindows()
    ensures SpecWindows(RETIMED.geometry, AUDIO) == [FIRST, SECOND, TAIL]
  {
    var g := RETIMED.geometry;
    assert g.ReadyCount(|AUDIO|) == 2;
    ReadyCountIsTaken(g, |AUDIO|);
    assert g.WindowAt(AUDIO, 0) == FIRST && g.WindowAt(AUDIO, 1) == SECOND;
    assert ReadyWindows(g, AUDIO, 0) == [];
    assert ReadyWindows(g, AUDIO, 1) == [FIRST];
    assert ReadyWindows(g, AUDIO, 2) == [FIRST, SECOND];
    assert g.FinalWindow(AUDIO, 2) == Some(TAIL);
  }

  lemma WordsOfOne(start: nat, s: RawSegment)
    ensures WordsOf(start, [s], 0.6) == WordsOfSegment(start, s, 0.6)
  {
    assert [s][..0] == [];
    assert WordsOf(start, [], 0.6) == [];
  }

  lemma DeckWords()
    ensures WordsOf(0, [DECK], 0.6) == [HELD]
  {
    WordsOfOne(0, DECK);
    PreciseWordsFrom(0, DECK, 0, 4600);
    assert DECK.tokens[0..] == DECK.tokens && DECK.words[0..] == DECK.words;
    assert DECK.tokens[1..] == [];
  }

  lemma DeckJoistWords()
    ensures WordsOf(4000, [DECK_JOIST], 0.6) == [HEARD_AGAIN, NEXT]
  {
    WordsOfOne(4000, DECK_JOIST);
    var s := DECK_JOIST;
    PreciseWordsFrom(4000, s, 0, 4100);
    PreciseWordsFrom(4000, s, 1, 4200);
    assert s.tokens[0..] == s.tokens && s.words[0..] == s.words;
    assert s.tokens[2..] == [];
  }

  /** The first window holds its word past the horizon. */
  lemma FirstHolds()
    ensures WordsAt(RETIMED, Core([], []), FIRST) == Some([HELD])
    ensures DecodeOne(RETIMED, Core([], []), FIRST) == Pass(Core([HELD], [FIRST.samples]), [], None)
  {
    DeckWords();
    CommitCutUnique([HELD], At(4000), 0);
    assert Merged([], [HELD]) == [HELD];
    hide WordsOf, Merged, CommitCut;
    assert RETIMED.StartMs(FIRST) == 0 && RETIMED.HorizonOf(FIRST) == At(4000);
    assert RETIMED.decode([], FIRST.samples) == Ok([DECK]);
    assert [HELD][..0] == [] && [HELD][0..] == [HELD];
  }

  /** The second matches it, timed earlier, and commits the pair out of order. */
  lemma SecondCommits()
    ensures WordsAt(RETIMED, Core([HELD], [FIRST.samples]), SECOND) == Some([HEARD_AGAIN, NEXT])
    ensures DecodeOne(RETIMED, Core([HELD], [FIRST.samples]), SECOND)
            == Pass(Core([], [FIRST.samples, SECOND.samples]), [HELD, NEXT], None)
  {
    DeckJoistWords();
    var words := [HEARD_AGAIN, NEXT];
    assert TextOverlap([HELD], words, 1);
    assert BestOverlap([HELD], words) == 1;
    assert Merged([HELD], words) == [HELD, NEXT];
    CommitCutUnique([HELD, NEXT], At(8000), 2);
    hide WordsOf, Merged, CommitCut, BestOverlap;
    assert RETIMED.StartMs(SECOND) == 4000 && RETIMED.HorizonOf(SECOND) == At(8000);
    assert RETIMED.decode([FIRST.samples], SECOND.samples) == Ok([DECK_JOIST]);
    assert [FIRST.samples] + [SECOND.samples] == [FIRST.samples, SECOND.samples];
    assert [HELD, NEXT][..2] == [HELD, NEXT] && [HELD, NEXT][2..] == [];
  }

  lemma TailIsSilent(fed: seq<seq<Sample>>)
    requires |fed| == 2
    ensures WordsAt(RETIMED, Core([], fed), TAIL) == Some([])
    ensures DecodeOne(RETIMED, Core([], fed), TAIL) == Pass(Core([], fed + [TAIL.samples]), [], None)
  {
    assert WordsOf(RETIMED.StartMs(TAIL), [], 0.6) == [];
    assert Merged([], []) == [];
    hide WordsOf, Merged;
    assert RETIMED.decode(fed, TAIL.samples) == Ok([]);
  }

  lemma FoldedAudio()
    ensures var ws := [FIRST, SECOND, TAIL];
            && Fold(RETIMED, ws[..0]).core == Core([], [])
            && Fold(RETIMED, ws[..1]).core == Core([HELD], [FIRST.samples])
            && Fold(RETIMED, ws[..2]) == Folded(Core([], [FIRST.samples, SECOND.samples]), [HELD, NEXT], false)
            && Fold(RETIMED, ws).core.pending == [] && Fold(RETIMED, ws).drained == [HELD, NEXT]
            && !Fold(RETIMED, ws).failed
  {
    hide DecodeOne;
    var ws := [FIRST, SECOND, TAIL];
    assert ws[..0] == [] && ws[..1] == [] + [FIRST] && ws[..2] == [FIRST] + [SECOND] && ws == [FIRST, SECOND] + [TAIL];
    FoldSnoc(RETIMED, [], FIRST);
    FirstHolds();
    FoldSnoc(RETIMED, [FIRST], SECOND);
    SecondCommits();
    FoldSnoc(RETIMED, [FIRST, SECOND], TAIL);
    TailIsSilent([FIRST.samples, SECOND.samples]);
  }

  lemma AudioContributions()
    ensures var ws := [FIRST, SECOND, TAIL];
            && Contribution(RETIMED, ws, 0) == Some([HELD])
            && Contribution(RETIMED, ws, 1) == Some([HEARD_AGAIN, NEXT])
            && Contribution(RETIMED, ws, 2) == Some([])
  {
    hide Fold, WordsAt, DecodeOne;
    FoldedAudio();
    FirstHolds();
    SecondCommits();
    TailIsSilent([FIRST.samples, SECOND.samples]);
  }

  lemma AudioIsPreciseAndOrdered()
    ensures PreciseAndOrdered(RETIMED, [FIRST, SECOND, TAIL])
  {
    hide Contribution;
    AudioContributions();
    assert Sorted([HELD]) && Sorted([HEARD_AGAIN, NEXT]) && Sorted([]);
  }

  /**
   * Aligned windows, a small overlap, times inside their windows, precise words in order in
   * every window, no decode failure: and yet the emitted stream is out of order.
   */
  lemma RetimingEarlierBreaksOrder()
    ensures Aligned(RETIMED) && RETIMED.overlapMs <= RETIMED.StepMs() && DecoderStaysInside(RETIMED)
    ensures PreciseAndOrdered(RETIMED, SpecWindows(RETIMED.geometry, AllPcm([Push(AUDIO)])))
    ensures RunToEnd(RETIMED, [Push(AUDIO)]).ok
    ensures !SegmentsInOrder(RunToEnd(RETIMED, [Push(AUDIO)]).emitted)
  {
    hide Fold, WordsAt, RunToEnd, SpecWindows, PreciseAndOrdered;
    var calls := [Push(AUDIO)];
    assert AllPcm(calls) == AUDIO by {
      assert calls[..0] == [] && AllPcm([]) == [];
    }
    AudioWindows();
    FoldedAudio();
    AudioIsPreciseAndOrdered();
    EndFollowsFold(RETIMED, calls);
    ScheduleIndependence(RETIMED, calls, calls);
    var words := Transcript(RETIMED, AUDIO);
    assert words == [HELD, NEXT];
    EmitKeepsTimes(words);
    var out := RunToEnd(RETIMED, calls).emitted;
    assert out[0].startMs == 4600 && out[1].startMs == 4300;
  }
}
