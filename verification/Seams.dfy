/**
 * What the seam merge and the horizon guarantee about the words of a whole stream:
 * append-only growth, a bounded hold, and when start times come out in order.
 */
module Seams {
  import opened Outcomes
  import opened Chunking
  import opened Finalizing
  import opened Streaming
  import opened Schedules

  /** Committed words followed by held words. */
  function History(cfg: Config, ws: seq<Window>): seq<Word>
    requires cfg.Valid()
  {
    Fold(cfg, ws).drained + Fold(cfg, ws).core.pending
  }

  /** The words window `j` contributes to the fold, if it is decoded. */
  function Contribution(cfg: Config, ws: seq<Window>, j: nat): Option<seq<Word>>
    requires cfg.Valid() && j < |ws|
  {
    WordsAt(cfg, Fold(cfg, ws[..j]).core, ws[j])
  }

  // ---------------------------------------------------------------- append-only

  /** One window: nothing changes, or the history grows by exactly what the seam keeps. */
  lemma WindowAppends(cfg: Config, ws: seq<Window>)
    requires cfg.Valid() && ws != []
    ensures var before := ws[..|ws| - 1];
            match Contribution(cfg, ws, |ws| - 1)
            case None => Fold(cfg, ws).drained == Fold(cfg, before).drained
                         && Fold(cfg, ws).core.pending == Fold(cfg, before).core.pending
            case Some(words) =>
              var held := Fold(cfg, before).core.pending;
              var all := Merged(held, words);
              var cut := CommitCut(all, cfg.HorizonOf(ws[|ws| - 1]));
              && History(cfg, ws) == History(cfg, before) + words[SeamDrop(held, words)..]
              && Fold(cfg, ws).drained == Fold(cfg, before).drained + all[..cut]
              && Fold(cfg, ws).core.pending == all[cut..]
  {
    hide Merged, CommitCut;
    var n := |ws| - 1;
    var f := Fold(cfg, ws[..n]);
    match Contribution(cfg, ws, n) {
      case None => assert f.drained + [] == f.drained;
      case Some(words) => MergeKeepsHistory(f.drained, f.core.pending, words, cfg.HorizonOf(ws[n]));
    }
  }

  /**
   * The history of a stream grows, window by window, by a window's words less a prefix: the
   * largest matching text, or with no match the words that lie within audio held. With
   * nothing held it grows by all of them.
   */
  lemma NewSpeechIsKept(cfg: Config, ws: seq<Window>) returns (k: nat)
    requires cfg.Valid() && ws != [] && Contribution(cfg, ws, |ws| - 1).Some?
    ensures var before := ws[..|ws| - 1];
            var words := Contribution(cfg, ws, |ws| - 1).value;
            && RightDrop(Fold(cfg, before).core.pending, words, k)
            && History(cfg, ws) == History(cfg, before) + words[k..]
  {
    hide Fold, Contribution, RightDrop;
    WindowAppends(cfg, ws);
    var held := Fold(cfg, ws[..|ws| - 1]).core.pending;
    var words := Contribution(cfg, ws, |ws| - 1).value;
    k := MergeKeepsNewSpeech(held, words);
    hide Merged, SeamDrop;
    SuffixesAgree(held, words, k);
  }

  lemma SuffixesAgree(held: seq<Word>, words: seq<Word>, k: nat)
    requires k <= |words| && Merged(held, words) == held + words[k..]
    ensures words[SeamDrop(held, words)..] == words[k..]
  {
    assert Merged(held, words)[|held|..] == words[SeamDrop(held, words)..];
    assert (held + words[k..])[|held|..] == words[k..];
  }

  lemma MergeKeepsHistory(drained: seq<Word>, held: seq<Word>, words: seq<Word>, h: Horizon)
    ensures var all := Merged(held, words);
            var cut := CommitCut(all, h);
            drained + all[..cut] + all[cut..] == drained + held + words[SeamDrop(held, words)..]
  {
  }

  /** No committed or held word is ever revised, and committed words stay committed. */
  lemma {:induction false} AppendOnly(cfg: Config, ws: seq<Window>, k: nat)
    requires cfg.Valid() && k <= |ws|
    ensures History(cfg, ws[..k]) <= History(cfg, ws)
    ensures Fold(cfg, ws[..k]).drained <= Fold(cfg, ws).drained
    decreases |ws|
  {
    if k == |ws| {
      assert ws[..k] == ws;
    } else {
      var before := ws[..|ws| - 1];
      assert before[..k] == ws[..k];
      AppendOnly(cfg, before, k);
      WindowAppends(cfg, ws);
    }
  }

  // ---------------------------------------------------------------- windows on the clock

  /** Window starts fall on whole milliseconds, as with the default 5 s / 1 s / 16 kHz. */
  ghost predicate Aligned(cfg: Config) {
    && cfg.Valid() && cfg.overlapMs <= cfg.chunkMs
    && cfg.geometry.step * 1000 == cfg.StepMs() * cfg.sampleRate
  }

  /** Window `i` starts `i` steps in, and only the last may be final. */
  ghost predicate OnGrid(cfg: Config, ws: seq<Window>) {
    && (forall i :: 0 <= i < |ws| ==> ws[i].startSample == i * cfg.geometry.step)
    && (forall i :: 0 <= i < |ws| - 1 ==> !ws[i].isFinal)
  }

  lemma StartOnGrid(cfg: Config, k: nat)
    requires Aligned(cfg)
    ensures cfg.SampleToMs(k * cfg.geometry.step) == k * cfg.StepMs()
  {
    StepsOnGrid(k, cfg.geometry.step, cfg.StepMs(), cfg.sampleRate);
  }

  lemma StepsOnGrid(k: nat, step: nat, stepMs: nat, rate: nat)
    requires rate > 0 && step * 1000 == stepMs * rate
    ensures (k * step) * 1000 / rate == k * stepMs
  {
    calc {
      (k * step) * 1000;
      k * (step * 1000);
      k * (stepMs * rate);
      (k * stepMs) * rate;
    }
    DivOfProduct(k * stepMs, rate);
  }

  lemma DivOfProduct(a: nat, b: nat)
    requires b > 0
    ensures a * b / b == a
  {
    var q := a * b / b;
    assert (a - q) * b == a * b % b;
    MulBySign(a - q, b);
  }

  lemma MulBySign(x: int, b: nat)
    ensures x >= 1 ==> x * b >= b
    ensures x <= -1 ==> x * b + b <= 0
  {
  }

  lemma {:induction false} ReadyWindowsOnGrid(cfg: Config, stream: seq<Sample>, k: nat)
    requires cfg.Valid() && Taken(cfg.geometry, |stream|, k)
    ensures OnGrid(cfg, ReadyWindows(cfg.geometry, stream, k))
    ensures forall w :: w in ReadyWindows(cfg.geometry, stream, k) ==> !w.isFinal
  {
    if k > 0 {
      ReadyWindowsPrefix(cfg.geometry, stream, k - 1, k);
      ReadyWindowsOnGrid(cfg, stream, k - 1);
    }
  }

  lemma SpecWindowsOnGrid(cfg: Config, stream: seq<Sample>)
    requires cfg.Valid()
    ensures OnGrid(cfg, SpecWindows(cfg.geometry, stream))
  {
    ReadyCountIsTaken(cfg.geometry, |stream|);
    ReadyWindowsOnGrid(cfg, stream, cfg.geometry.ReadyCount(|stream|));
  }

  // ---------------------------------------------------------------- bounded hold

  /** Every word of every decoded window ends inside that window. */
  ghost predicate TimesInside(cfg: Config, ws: seq<Window>)
    requires cfg.Valid()
  {
    forall j, w :: 0 <= j < |ws| && Contribution(cfg, ws, j).Some? && w in Contribution(cfg, ws, j).value
                   ==> w.endMs <= cfg.StartMs(ws[j]) + cfg.chunkMs
  }

  /** The words of the latest window that was decoded. */
  function LastDecoded(cfg: Config, ws: seq<Window>): seq<Word>
    requires cfg.Valid()
  {
    if ws == [] then []
    else match Contribution(cfg, ws, |ws| - 1)
      case Some(words) => words
      case None => LastDecoded(cfg, ws[..|ws| - 1])
  }

  ghost predicate IsSuffix(s: seq<Word>, t: seq<Word>) {
    |s| <= |t| && s == t[|t| - |s|..]
  }

  lemma PrefixHypotheses(cfg: Config, ws: seq<Window>)
    requires cfg.Valid() && ws != []
    ensures forall j :: 0 <= j < |ws| - 1 ==> Contribution(cfg, ws[..|ws| - 1], j) == Contribution(cfg, ws, j)
    ensures TimesInside(cfg, ws) ==> TimesInside(cfg, ws[..|ws| - 1])
    ensures PreciseAndOrdered(cfg, ws) ==> PreciseAndOrdered(cfg, ws[..|ws| - 1])
    ensures OnGrid(cfg, ws) ==> OnGrid(cfg, ws[..|ws| - 1])
  {
    hide Contribution, Sorted;
    var before := ws[..|ws| - 1];
    forall j | 0 <= j < |ws| - 1
      ensures Contribution(cfg, before, j) == Contribution(cfg, ws, j)
    {
      assert before[..j] == ws[..j];
      ContributionDependsOnPrefix(cfg, before, ws, j);
    }
  }

  lemma ContributionDependsOnPrefix(cfg: Config, a: seq<Window>, b: seq<Window>, j: nat)
    requires cfg.Valid() && j < |a| && j < |b| && a[..j] == b[..j] && a[j] == b[j]
    ensures Contribution(cfg, a, j) == Contribution(cfg, b, j)
  {
  }

  lemma {:induction false} LastDecodedEnds(cfg: Config, ws: seq<Window>, w: Word)
    requires Aligned(cfg) && OnGrid(cfg, ws) && TimesInside(cfg, ws)
    requires w in LastDecoded(cfg, ws)
    ensures ws != [] && w.endMs + cfg.StepMs() <= |ws| * cfg.StepMs() + cfg.chunkMs
  {
    var n := |ws| - 1;
    StartOnGrid(cfg, n);
    assert |ws| * cfg.StepMs() == n * cfg.StepMs() + cfg.StepMs();
    if Contribution(cfg, ws, n).None? {
      PrefixHypotheses(cfg, ws);
      LastDecodedEnds(cfg, ws[..n], w);
    }
  }

  /**
   * With an overlap of at most one step, the held words are always a tail of the
   * latest decoded window, however many windows the energy gate skipped before it;
   * and when a window is decoded, everything held before it is committed.
   */
  lemma {:induction false} BoundedHold(cfg: Config, ws: seq<Window>)
    requires Aligned(cfg) && cfg.overlapMs <= cfg.StepMs()
    requires OnGrid(cfg, ws) && TimesInside(cfg, ws)
    ensures IsSuffix(Fold(cfg, ws).core.pending, LastDecoded(cfg, ws))
    ensures ws != [] && Contribution(cfg, ws, |ws| - 1).Some?
            ==> History(cfg, ws[..|ws| - 1]) <= Fold(cfg, ws).drained
  {
    if ws != [] {
      hide Fold, Contribution, Merged, CommitCut, SeamDrop, OnGrid, TimesInside;
      var n := |ws| - 1;
      PrefixHypotheses(cfg, ws);
      BoundedHold(cfg, ws[..n]);
      WindowAppends(cfg, ws);
      var f := Fold(cfg, ws[..n]);
      match Contribution(cfg, ws, n) {
        case None =>
        case Some(words) =>
          forall w | w in f.core.pending
            ensures cfg.HorizonOf(ws[n]).Passes(w)
          {
            HeldPassesNext(cfg, ws, w);
          }
          CommitsAllHeld(f.drained, f.core.pending, words, cfg.HorizonOf(ws[n]));
      }
    }
  }

  /** A word of the latest decoded window ends by the horizon of the window after it. */
  lemma HeldPassesNext(cfg: Config, ws: seq<Window>, w: Word)
    requires Aligned(cfg) && cfg.overlapMs <= cfg.StepMs()
    requires OnGrid(cfg, ws) && TimesInside(cfg, ws)
    requires ws != [] && w in LastDecoded(cfg, ws[..|ws| - 1])
    ensures cfg.HorizonOf(ws[|ws| - 1]).Passes(w)
  {
    PrefixHypotheses(cfg, ws);
    LastDecodedEnds(cfg, ws[..|ws| - 1], w);
    StartOnGrid(cfg, |ws| - 1);
  }

  lemma CommitsAllHeld(drained: seq<Word>, held: seq<Word>, words: seq<Word>, h: Horizon)
    requires forall w :: w in held ==> h.Passes(w)
    ensures var all := Merged(held, words);
            var cut := CommitCut(all, h);
            && drained + held <= drained + all[..cut]
            && IsSuffix(all[cut..], words)
  {
    hide CommitCut, SeamDrop;
    var drop := SeamDrop(held, words);
    var all := Merged(held, words);
    CutPassesHeld(held, words[drop..], h);
    var cut := CommitCut(all, h);
    assert all[..cut] == held + words[drop..][..cut - |held|];
    assert all[cut..] == words[drop..][cut - |held|..] == words[drop + (cut - |held|)..];
  }

  lemma CutPassesHeld(held: seq<Word>, more: seq<Word>, h: Horizon)
    requires forall w :: w in held ==> h.Passes(w)
    ensures |held| <= CommitCut(held + more, h)
  {
    var all := held + more;
    assert forall i :: 0 <= i < |held| ==> all[i] == held[i] && held[i] in held;
  }

  /** The hypothesis on times holds when the decoder keeps its timestamps inside the window. */
  ghost predicate SegmentsInside(segs: seq<RawSegment>, chunkMs: nat) {
    forall s :: s in segs ==>
      && s.startCs * 10 <= chunkMs && s.endCs * 10 <= chunkMs
      && forall t :: t in s.words ==> t.startCs * 10 <= chunkMs && t.endCs * 10 <= chunkMs
  }

  lemma {:induction false} PreciseWordsAnchored(start: nat, tokens: seq<string>, ts: seq<WordTiming>, last: nat, limit: nat)
    requires |tokens| == |ts|
    ensures forall w :: w in PreciseWords(start, tokens, ts, last) ==> start <= w.startMs <= w.endMs
    ensures last <= start + limit
            && (forall t :: t in ts ==> t.startCs * 10 <= limit && t.endCs * 10 <= limit)
            ==> forall w :: w in PreciseWords(start, tokens, ts, last) ==> w.endMs <= start + limit
  {
    if tokens != [] {
      var s := Max(ToMs(start, ts[0].startCs), last);
      assert ts[0] in ts;
      PreciseWordsAnchored(start, tokens[1..], ts[1..], Max(ToMs(start, ts[0].endCs), s), limit);
    }
  }

  lemma CoarseWordsShareSpan(tokens: seq<string>, s: nat, e: nat)
    ensures forall w :: w in CoarseWords(tokens, s, e) ==> w.startMs == s && w.endMs == e && !w.timePrecise
  {
  }

  /** Words never start before their window; precise ones never end before they start. */
  lemma {:induction false} WordsAnchored(start: nat, segs: seq<RawSegment>, threshold: real, limit: nat)
    ensures forall w :: w in WordsOf(start, segs, threshold) ==>
                          start <= w.startMs && (w.timePrecise ==> w.startMs <= w.endMs)
    ensures SegmentsInside(segs, limit) ==>
              forall w :: w in WordsOf(start, segs, threshold) ==> w.endMs <= start + limit
  {
    if segs != [] {
      var s := segs[|segs| - 1];
      assert s in segs;
      WordsAnchored(start, segs[..|segs| - 1], threshold, limit);
      if |s.words| == |s.tokens| {
        PreciseWordsAnchored(start, s.tokens, s.words, ToMs(start, s.startCs), limit);
      }
      CoarseWordsShareSpan(s.tokens, ToMs(start, s.startCs), ToMs(start, s.endCs));
    }
  }

  ghost predicate DecoderStaysInside(cfg: Config) {
    forall fed, samples :: cfg.decode(fed, samples).Ok? ==> SegmentsInside(cfg.decode(fed, samples).value, cfg.chunkMs)
  }

  lemma TimesStayInside(cfg: Config, ws: seq<Window>)
    requires cfg.Valid() && DecoderStaysInside(cfg)
    ensures TimesInside(cfg, ws)
  {
    forall j, w | 0 <= j < |ws| && Contribution(cfg, ws, j).Some? && w in Contribution(cfg, ws, j).value
      ensures w.endMs <= cfg.StartMs(ws[j]) + cfg.chunkMs
    {
      var raw := cfg.decode(Fold(cfg, ws[..j]).core.fed, ws[j].samples).value;
      WordsAnchored(cfg.StartMs(ws[j]), raw, cfg.noSpeechThreshold, cfg.chunkMs);
    }
  }

  /** Between any two calls, whatever has failed, the stream holds words of one decoded window only. */
  lemma AnyRunHoldsOneWindow(cfg: Config, calls: seq<Call>)
    requires Aligned(cfg) && cfg.overlapMs <= cfg.StepMs() && DecoderStaysInside(cfg)
    ensures var s := Run(cfg, calls).state;
            && Taken(cfg.geometry, |s.received|, s.taken)
            && IsSuffix(s.core.pending, LastDecoded(cfg, ReadyWindows(cfg.geometry, s.received, s.taken)))
  {
    RunFollowsFold(cfg, calls);
    var s := Run(cfg, calls).state;
    var ws := ReadyWindows(cfg.geometry, s.received, s.taken);
    ReadyWindowsOnGrid(cfg, s.received, s.taken);
    TimesStayInside(cfg, ws);
    BoundedHold(cfg, ws);
  }

  // ---------------------------------------------------------------- committed time order

  ghost predicate Sorted(s: seq<Word>) {
    forall i, j :: 0 <= i < j < |s| ==> s[i].startMs <= s[j].startMs
  }

  /** Every decoded window has per-word times, in order. */
  ghost predicate PreciseAndOrdered(cfg: Config, ws: seq<Window>)
    requires cfg.Valid()
  {
    forall j :: 0 <= j < |ws| && Contribution(cfg, ws, j).Some? ==>
      var words := Contribution(cfg, ws, j).value;
      Sorted(words) && forall w :: w in words ==> w.timePrecise
  }

  /** A text seam resumes at a word that starts no earlier than the last held word. */
  predicate ResumesInOrder(held: seq<Word>, words: seq<Word>) {
    var k := BestOverlap(held, words);
    held != [] && 0 < k < |words| ==> held[|held| - 1].startMs <= words[k].startMs
  }

  ghost predicate SeamInOrder(cfg: Config, ws: seq<Window>, j: nat)
    requires cfg.Valid() && j < |ws|
  {
    var words := Contribution(cfg, ws, j);
    words.Some? ==> ResumesInOrder(Fold(cfg, ws[..j]).core.pending, words.value)
  }

  lemma SortedConcat(a: seq<Word>, b: seq<Word>)
    requires Sorted(b)
    ensures Sorted(a + b) <==> Sorted(a) && (a == [] || b == [] || a[|a| - 1].startMs <= b[0].startMs)
  {
    var s := a + b;
    if Sorted(s) {
      assert forall i :: 0 <= i < |a| ==> s[i] == a[i];
      if a != [] && b != [] {
        assert s[|a| - 1] == a[|a| - 1] && s[|a|] == b[0];
      }
    }
  }

  /** The horizon of a window is the start of the next one. */
  lemma HorizonMeetsStart(cfg: Config, ws: seq<Window>, i: nat)
    requires Aligned(cfg) && OnGrid(cfg, ws) && i + 1 < |ws|
    ensures cfg.HorizonOf(ws[i]) == At(cfg.StartMs(ws[i + 1]))
  {
    StartOnGrid(cfg, i);
    StartOnGrid(cfg, i + 1);
    assert (i + 1) * cfg.StepMs() == i * cfg.StepMs() + cfg.StepMs();
  }

  /** What the fold keeps besides order: words are well formed, and committed ones end by the last horizon. */
  ghost predicate Settled(cfg: Config, ws: seq<Window>)
    requires cfg.Valid()
  {
    && (forall w :: w in History(cfg, ws) ==> w.startMs <= w.endMs)
    && (ws != [] ==> forall w :: w in Fold(cfg, ws).drained ==> cfg.HorizonOf(ws[|ws| - 1]).Passes(w))
    && (ws == [] ==> Fold(cfg, ws).drained == [])
  }

  lemma ContributionAnchored(cfg: Config, ws: seq<Window>, j: nat)
    requires cfg.Valid() && PreciseAndOrdered(cfg, ws)
    requires j < |ws| && Contribution(cfg, ws, j).Some?
    ensures forall w :: w in Contribution(cfg, ws, j).value ==> cfg.StartMs(ws[j]) <= w.startMs <= w.endMs
    ensures Sorted(Contribution(cfg, ws, j).value) && forall w :: w in Contribution(cfg, ws, j).value ==> w.timePrecise
  {
    var raw := cfg.decode(Fold(cfg, ws[..j]).core.fed, ws[j].samples).value;
    WordsAnchored(cfg.StartMs(ws[j]), raw, cfg.noSpeechThreshold, 0);
  }

  /** Words committed earlier ended by the start of the latest window. */
  lemma SettledBefore(cfg: Config, ws: seq<Window>)
    requires Aligned(cfg) && OnGrid(cfg, ws) && ws != [] && Settled(cfg, ws[..|ws| - 1])
    ensures forall w :: w in Fold(cfg, ws[..|ws| - 1]).drained ==> w.endMs <= cfg.StartMs(ws[|ws| - 1])
  {
    hide Fold, Aligned, Config.SampleToMs;
    if |ws| > 1 {
      HorizonMeetsStart(cfg, ws, |ws| - 2);
    }
  }

  lemma {:induction false} AlwaysSettled(cfg: Config, ws: seq<Window>)
    requires Aligned(cfg) && OnGrid(cfg, ws) && PreciseAndOrdered(cfg, ws)
    ensures Settled(cfg, ws)
  {
    if ws == [] {
      EmptyFold(cfg);
    } else {
      assert cfg.Valid();
      hide Fold, Contribution, Merged, CommitCut, SeamDrop, Aligned, Config.SampleToMs;
      var n := |ws| - 1;
      PrefixHypotheses(cfg, ws);
      AlwaysSettled(cfg, ws[..n]);
      SettledBefore(cfg, ws);
      WindowAppends(cfg, ws);
      if Contribution(cfg, ws, n).Some? {
        ContributionAnchored(cfg, ws, n);
        CommittedPass(Merged(Fold(cfg, ws[..n]).core.pending, Contribution(cfg, ws, n).value), cfg.HorizonOf(ws[n]));
      }
    }
  }

  lemma EmptyFold(cfg: Config)
    requires cfg.Valid()
    ensures Fold(cfg, []) == Folded(Core([], []), [], false)
  {
  }

  lemma CommittedPass(all: seq<Word>, h: Horizon)
    ensures forall w :: w in all[..CommitCut(all, h)] ==> h.Passes(w)
  {
  }

  /** One merge keeps a time-ordered history in order exactly when its seam resumes in order. */
  lemma MergeInOrderIff(drained: seq<Word>, held: seq<Word>, words: seq<Word>, clock: nat)
    requires Sorted(words) && forall w :: w in words ==> w.timePrecise
    requires forall w :: w in words ==> clock <= w.startMs
    requires forall w :: w in drained ==> w.startMs <= w.endMs <= clock
    requires forall w :: w in held ==> w.startMs <= w.endMs
    ensures Sorted(drained + held + words[SeamDrop(held, words)..])
            <==> Sorted(drained + held) && ResumesInOrder(held, words)
  {
    var kept := words[SeamDrop(held, words)..];
    SortedConcat(drained + held, kept);
    if kept != [] {
      assert kept[0] in words;
      if held == [] {
        if drained != [] {
          assert drained[|drained| - 1] in drained;
        }
      } else {
        assert held[|held| - 1] in held;
      }
    }
  }

  lemma SeamStep(cfg: Config, ws: seq<Window>)
    requires Aligned(cfg) && OnGrid(cfg, ws) && PreciseAndOrdered(cfg, ws) && ws != []
    ensures Sorted(History(cfg, ws)) <==> Sorted(History(cfg, ws[..|ws| - 1])) && SeamInOrder(cfg, ws, |ws| - 1)
  {
    assert cfg.Valid();
    hide Fold, Contribution, Merged, CommitCut, SeamDrop, ResumesInOrder, Sorted, Aligned, PreciseAndOrdered;
    hide OnGrid, Config.StartMs, Config.HorizonOf;
    var n := |ws| - 1;
    PrefixHypotheses(cfg, ws);
    WindowAppends(cfg, ws);
    AlwaysSettled(cfg, ws[..n]);
    SettledBefore(cfg, ws);
    if Contribution(cfg, ws, n).Some? {
      ContributionAnchored(cfg, ws, n);
      var f := Fold(cfg, ws[..n]);
      MergeInOrderIff(f.drained, f.core.pending, Contribution(cfg, ws, n).value, cfg.StartMs(ws[n]));
    }
  }

  /** Every text seam of the run resumes in order. */
  ghost predicate SeamsInOrder(cfg: Config, ws: seq<Window>)
    requires cfg.Valid()
  {
    ws == [] || (SeamsInOrder(cfg, ws[..|ws| - 1]) && SeamInOrder(cfg, ws, |ws| - 1))
  }

  lemma {:induction false} HistoryInOrderIff(cfg: Config, ws: seq<Window>)
    requires Aligned(cfg) && OnGrid(cfg, ws) && PreciseAndOrdered(cfg, ws)
    ensures Sorted(History(cfg, ws)) <==> SeamsInOrder(cfg, ws)
  {
    if ws == [] {
      EmptyFold(cfg);
    } else {
      PrefixHypotheses(cfg, ws);
      HistoryInOrderIff(cfg, ws[..|ws| - 1]);
      SeamStep(cfg, ws);
    }
  }

  ghost predicate SegmentsInOrder(out: seq<FinalizedSegment>) {
    forall i, j :: 0 <= i < j < |out| ==> out[i].startMs <= out[j].startMs
  }

  lemma EmitKeepsTimes(words: seq<Word>)
    ensures |Emit(words)| == |words|
    ensures forall i :: 0 <= i < |words| ==> Emit(words)[i].startMs == words[i].startMs
  {
  }

  /**
   * With per-word times, the whole emitted stream of a successful run is in time order
   * exactly when every text seam resumes no earlier than the last word it held.
   */
  lemma EmittedInOrderIff(cfg: Config, calls: seq<Call>)
    requires Aligned(cfg) && RunToEnd(cfg, calls).ok
    requires PreciseAndOrdered(cfg, SpecWindows(cfg.geometry, AllPcm(calls)))
    ensures var ws := SpecWindows(cfg.geometry, AllPcm(calls));
            SegmentsInOrder(RunToEnd(cfg, calls).emitted) <==> SeamsInOrder(cfg, ws)
  {
    var ws := SpecWindows(cfg.geometry, AllPcm(calls));
    SpecWindowsOnGrid(cfg, AllPcm(calls));
    HistoryInOrderIff(cfg, ws);
    ScheduleIndependence(cfg, calls, calls);
    EmitKeepsTimes(Transcript(cfg, AllPcm(calls)));
  }

  /** In particular when the last matched word is never re-timed before the held one. */
  lemma RetimedMatchResumesInOrder(held: seq<Word>, words: seq<Word>)
    requires Sorted(words)
    requires var k := BestOverlap(held, words); k > 0 ==> held[|held| - 1].startMs <= words[k - 1].startMs
    ensures ResumesInOrder(held, words)
  {
  }
}
