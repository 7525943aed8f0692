/**
 * Seam merge and time horizon of the streaming transcript
 * (crates/stt/src/finalize.rs). Times are milliseconds from stream start.
 */
module Finalizing {

  /** `tokens` is the segment text already split on white space; times are in centiseconds. */
  datatype WordTiming = WordTiming(startCs: int, endCs: int)

  datatype RawSegment = RawSegment(
    startCs: int,
    endCs: int,
    tokens: seq<string>,
    noSpeechProb: real,
    words: seq<WordTiming>)

  datatype Word = Word(text: string, startMs: nat, endMs: nat, timePrecise: bool)

  /** `Never` is the flush horizon `u64::MAX`, which no word ends after. */
  datatype Horizon = At(ms: nat) | Never {
    predicate Passes(w: Word) {
      Never? || w.endMs <= ms
    }
  }

  function Max(a: nat, b: nat): nat {
    if a < b then b else a
  }

  function ToMs(windowStartMs: nat, cs: int): nat {
    windowStartMs + (if cs < 0 then 0 else cs) * 10
  }

  // ---------------------------------------------------------------- words of a window

  /** Word-anchored expansion: each word has its own span, clamped to start after the last. */
  function PreciseWords(windowStartMs: nat, tokens: seq<string>, timings: seq<WordTiming>, lastEnd: nat): (ws: seq<Word>)
    requires |tokens| == |timings|
    ensures |ws| == |tokens|
  {
    if tokens == [] then []
    else
      var start := Max(ToMs(windowStartMs, timings[0].startCs), lastEnd);
      var end := Max(ToMs(windowStartMs, timings[0].endCs), start);
      [Word(tokens[0], start, end, true)] + PreciseWords(windowStartMs, tokens[1..], timings[1..], end)
  }

  lemma PreciseWordsFrom(windowStartMs: nat, s: RawSegment, j: nat, lastEnd: nat)
    requires |s.tokens| == |s.words| && j < |s.tokens|
    ensures var start := Max(ToMs(windowStartMs, s.words[j].startCs), lastEnd);
            var end := Max(ToMs(windowStartMs, s.words[j].endCs), start);
            PreciseWords(windowStartMs, s.tokens[j..], s.words[j..], lastEnd)
            == [Word(s.tokens[j], start, end, true)] + PreciseWords(windowStartMs, s.tokens[j + 1..], s.words[j + 1..], end)
  {
    assert s.tokens[j..][1..] == s.tokens[j + 1..] && s.words[j..][1..] == s.words[j + 1..];
  }

  function CoarseWords(tokens: seq<string>, startMs: nat, endMs: nat): (ws: seq<Word>)
    ensures |ws| == |tokens|
  {
    if tokens == [] then [] else [Word(tokens[0], startMs, endMs, false)] + CoarseWords(tokens[1..], startMs, endMs)
  }

  function WordsOfSegment(windowStartMs: nat, s: RawSegment, threshold: real): seq<Word> {
    if s.noSpeechProb > threshold then []
    else if s.words != [] && |s.words| == |s.tokens| then
      PreciseWords(windowStartMs, s.tokens, s.words, ToMs(windowStartMs, s.startCs))
    else
      CoarseWords(s.tokens, ToMs(windowStartMs, s.startCs), ToMs(windowStartMs, s.endCs))
  }

  function WordsOf(windowStartMs: nat, segs: seq<RawSegment>, threshold: real): seq<Word> {
    if segs == [] then []
    else WordsOf(windowStartMs, segs[..|segs| - 1], threshold)
         + WordsOfSegment(windowStartMs, segs[|segs| - 1], threshold)
  }

  // ---------------------------------------------------------------- what the words of a segment are

  /** Timings are used when there is one for each token. */
  predicate HasTimings(s: RawSegment) {
    s.words != [] && |s.words| == |s.tokens|
  }

  /** A word with its own timing: it starts there, or at `from` if that is later, and does not end before it starts. */
  predicate Timed(w: Word, windowStartMs: nat, token: string, t: WordTiming, from: nat) {
    && w.text == token && w.timePrecise
    && w.startMs == Max(windowStartMs + (if t.startCs < 0 then 0 else t.startCs * 10), from)
    && w.endMs == Max(windowStartMs + (if t.endCs < 0 then 0 else t.endCs * 10), w.startMs)
  }

  /** Where word `i` may start at the earliest: at `lastEnd`, or where the word before it ended. */
  function From(ws: seq<Word>, i: nat, lastEnd: nat): nat
    requires i <= |ws|
  {
    if i == 0 then lastEnd else ws[i - 1].endMs
  }

  lemma {:induction false} PreciseWordsAre(windowStartMs: nat, tokens: seq<string>, timings: seq<WordTiming>, lastEnd: nat)
    requires |tokens| == |timings|
    ensures var ws := PreciseWords(windowStartMs, tokens, timings, lastEnd);
            forall i :: 0 <= i < |ws| ==> Timed(ws[i], windowStartMs, tokens[i], timings[i], From(ws, i, lastEnd))
  {
    if tokens != [] {
      hide Timed;
      var start := Max(ToMs(windowStartMs, timings[0].startCs), lastEnd);
      var end := Max(ToMs(windowStartMs, timings[0].endCs), start);
      var rest := PreciseWords(windowStartMs, tokens[1..], timings[1..], end);
      var ws := PreciseWords(windowStartMs, tokens, timings, lastEnd);
      PreciseWordsAre(windowStartMs, tokens[1..], timings[1..], end);
      FirstIsTimed(windowStartMs, tokens[0], timings[0], lastEnd);
      assert ws == [Word(tokens[0], start, end, true)] + rest;
      forall i | 0 < i < |ws|
        ensures Timed(ws[i], windowStartMs, tokens[i], timings[i], From(ws, i, lastEnd))
      {
        assert ws[i] == rest[i - 1] && tokens[1..][i - 1] == tokens[i] && timings[1..][i - 1] == timings[i];
        assert From(ws, i, lastEnd) == From(rest, i - 1, end);
      }
    }
  }

  lemma FirstIsTimed(windowStartMs: nat, token: string, t: WordTiming, lastEnd: nat)
    ensures var start := Max(ToMs(windowStartMs, t.startCs), lastEnd);
            Timed(Word(token, start, Max(ToMs(windowStartMs, t.endCs), start), true), windowStartMs, token, t, lastEnd)
  {
  }

  lemma {:induction false} CoarseWordsAre(tokens: seq<string>, startMs: nat, endMs: nat)
    ensures var ws := CoarseWords(tokens, startMs, endMs);
            forall i :: 0 <= i < |ws| ==> ws[i] == Word(tokens[i], startMs, endMs, false)
  {
    if tokens != [] {
      CoarseWordsAre(tokens[1..], startMs, endMs);
      var rest := CoarseWords(tokens[1..], startMs, endMs);
      var ws := CoarseWords(tokens, startMs, endMs);
      assert ws == [Word(tokens[0], startMs, endMs, false)] + rest;
      assert forall i :: 0 < i < |ws| ==> ws[i] == rest[i - 1];
    }
  }

  /**
   * A segment above the threshold gives no words. Any other gives one word for each token, in
   * order. With a timing for each, a word starts at its own time or where the last one ended,
   * whichever is later, and never ends before it starts; without, it has the segment's span.
   */
  lemma SegmentWordsAre(windowStartMs: nat, s: RawSegment, threshold: real)
    ensures var ws := WordsOfSegment(windowStartMs, s, threshold);
            if s.noSpeechProb > threshold then ws == []
            else
              && |ws| == |s.tokens|
              && (HasTimings(s) ==> forall i :: 0 <= i < |ws| ==>
                    Timed(ws[i], windowStartMs, s.tokens[i], s.words[i], From(ws, i, ToMs(windowStartMs, s.startCs))))
              && (!HasTimings(s) ==> forall i :: 0 <= i < |ws| ==>
                    ws[i] == Word(s.tokens[i], ToMs(windowStartMs, s.startCs), ToMs(windowStartMs, s.endCs), false))
  {
    hide Timed, From;
    if HasTimings(s) {
      PreciseWordsAre(windowStartMs, s.tokens, s.words, ToMs(windowStartMs, s.startCs));
    }
    CoarseWordsAre(s.tokens, ToMs(windowStartMs, s.startCs), ToMs(windowStartMs, s.endCs));
    hide PreciseWords, CoarseWords, ToMs;
  }

  /** So the words of a timed segment come in order, none starting before the last has ended. */
  lemma TimedWordsAreOrdered(windowStartMs: nat, s: RawSegment, threshold: real)
    requires HasTimings(s)
    ensures var ws := WordsOfSegment(windowStartMs, s, threshold);
            forall i :: 0 < i < |ws| ==> ws[i - 1].endMs <= ws[i].startMs <= ws[i].endMs
  {
    SegmentWordsAre(windowStartMs, s, threshold);
    hide WordsOfSegment;
    var ws := WordsOfSegment(windowStartMs, s, threshold);
    forall i | 0 < i < |ws|
      ensures ws[i - 1].endMs <= ws[i].startMs <= ws[i].endMs
    {
      assert Timed(ws[i], windowStartMs, s.tokens[i], s.words[i], From(ws, i, ToMs(windowStartMs, s.startCs)));
    }
  }

  /** The words of a window are those of its segments, in order. */
  lemma {:induction false} WindowWordsConcat(windowStartMs: nat, a: seq<RawSegment>, b: seq<RawSegment>, threshold: real)
    ensures WordsOf(windowStartMs, a + b, threshold) == WordsOf(windowStartMs, a, threshold) + WordsOf(windowStartMs, b, threshold)
  {
    hide WordsOfSegment;
    if b == [] {
      assert a + b == a;
    } else {
      assert (a + b)[..|a + b| - 1] == a + b[..|b| - 1];
      WindowWordsConcat(windowStartMs, a, b[..|b| - 1], threshold);
    }
  }

  lemma OneSegmentsWords(windowStartMs: nat, s: RawSegment, threshold: real)
    ensures WordsOf(windowStartMs, [s], threshold) == WordsOfSegment(windowStartMs, s, threshold)
  {
    hide WordsOfSegment;
    assert [s][..0] == [] && WordsOf(windowStartMs, [], threshold) == [];
  }

  method WordsFromSegments(windowStartMs: nat, segs: seq<RawSegment>, threshold: real) returns (out: seq<Word>)
    ensures out == WordsOf(windowStartMs, segs, threshold)
  {
    out := [];
    for i := 0 to |segs|
      invariant out == WordsOf(windowStartMs, segs[..i], threshold)
    {
      var s := segs[i];
      assert segs[..i + 1][..i] == segs[..i];
      if s.noSpeechProb > threshold {
        continue;
      }
      var segStart := ToMs(windowStartMs, s.startCs);
      var segEnd := ToMs(windowStartMs, s.endCs);
      ghost var before := out;
      if s.words != [] && |s.words| == |s.tokens| {
        var lastEnd := segStart;
        for j := 0 to |s.tokens|
          invariant out + PreciseWords(windowStartMs, s.tokens[j..], s.words[j..], lastEnd)
                    == before + WordsOfSegment(windowStartMs, s, threshold)
        {
          var start := Max(ToMs(windowStartMs, s.words[j].startCs), lastEnd);
          var end := Max(ToMs(windowStartMs, s.words[j].endCs), start);
          PreciseWordsFrom(windowStartMs, s, j, lastEnd);
          out := out + [Word(s.tokens[j], start, end, true)];
          lastEnd := end;
        }
      } else {
        for j := 0 to |s.tokens|
          invariant out + CoarseWords(s.tokens[j..], segStart, segEnd)
                    == before + WordsOfSegment(windowStartMs, s, threshold)
        {
          assert s.tokens[j..][1..] == s.tokens[j + 1..];
          out := out + [Word(s.tokens[j], segStart, segEnd, false)];
        }
      }
    }
    assert segs[..|segs|] == segs;
  }

  // ---------------------------------------------------------------- the two seams

  const MAX_OVERLAP: nat := 40

  /** The last `k` held texts equal the first `k` new ones. */
  predicate TextOverlap(held: seq<Word>, incoming: seq<Word>, k: nat) {
    && k <= |held| && k <= |incoming| && k <= MAX_OVERLAP
    && forall i :: 0 <= i < k ==> held[|held| - k + i].text == incoming[i].text
  }

  /** The largest text overlap not above `bound`. */
  function OverlapUpTo(held: seq<Word>, incoming: seq<Word>, bound: nat): (k: nat)
    ensures k == 0 || (k <= bound && TextOverlap(held, incoming, k))
    ensures forall j :: k < j <= bound ==> !TextOverlap(held, incoming, j)
  {
    if bound == 0 || TextOverlap(held, incoming, bound) then bound else OverlapUpTo(held, incoming, bound - 1)
  }

  function BestOverlap(held: seq<Word>, incoming: seq<Word>): (k: nat)
    ensures TextOverlap(held, incoming, k)
    ensures forall j :: k < j ==> !TextOverlap(held, incoming, j)
  {
    OverlapUpTo(held, incoming, MAX_OVERLAP)
  }

  /** A common text of up to forty words is always matched, and none longer is. */
  lemma OverlapStopsAtForty(held: seq<Word>, incoming: seq<Word>, n: nat)
    requires n <= |held| && n <= |incoming| && n <= 40
    requires forall i :: 0 <= i < n ==> held[|held| - n + i].text == incoming[i].text
    ensures n <= BestOverlap(held, incoming) <= 40
  {
    assert TextOverlap(held, incoming, n);
  }

  /** Latest end among the held words. */
  function MaxEnd(held: seq<Word>): (m: nat)
    ensures forall w :: w in held ==> w.endMs <= m
    ensures held != [] ==> exists w :: w in held && w.endMs == m
  {
    if held == [] then 0
    else
      var last := held[|held| - 1];
      assert last in held;
      assert forall w :: w in held ==> w == last || w in held[..|held| - 1];
      Max(MaxEnd(held[..|held| - 1]), last.endMs)
  }

  /** A new word that re-decodes audio already held: precise words by start, coarse by end. */
  predicate Redecodes(w: Word, heldEnd: nat) {
    if w.timePrecise then w.startMs <= heldEnd else w.endMs <= heldEnd
  }

  /** Length of the maximal leading run of re-decoded words. */
  function RedecodedRun(incoming: seq<Word>, heldEnd: nat): (k: nat)
    ensures k <= |incoming|
    ensures forall i :: 0 <= i < k ==> Redecodes(incoming[i], heldEnd)
    ensures k < |incoming| ==> !Redecodes(incoming[k], heldEnd)
  {
    if incoming == [] || !Redecodes(incoming[0], heldEnd) then 0 else 1 + RedecodedRun(incoming[1..], heldEnd)
  }

  /** How many leading words of `incoming` the merge drops. */
  function SeamDrop(held: seq<Word>, incoming: seq<Word>): (k: nat)
    ensures k <= |incoming|
  {
    if held == [] then 0
    else if BestOverlap(held, incoming) > 0 then BestOverlap(held, incoming)
    else RedecodedRun(incoming, MaxEnd(held))
  }

  function Merged(held: seq<Word>, incoming: seq<Word>): seq<Word> {
    held + incoming[SeamDrop(held, incoming)..]
  }

  /** Where a word stands for the fallback seam: precise words by start, coarse ones by end. */
  function SeamTime(w: Word): nat {
    if w.timePrecise then w.startMs else w.endMs
  }

  /** The word lies past all audio already held. */
  predicate PastHeld(held: seq<Word>, w: Word) {
    forall h :: h in held ==> h.endMs < SeamTime(w)
  }

  /** `k` leading words of `incoming` are dropped, and why just those. */
  ghost predicate RightDrop(held: seq<Word>, incoming: seq<Word>, k: nat) {
    && k <= |incoming|
    && (held == [] ==> k == 0)
    && (held != [] && (exists j :: j > 0 && TextOverlap(held, incoming, j)) ==>
          TextOverlap(held, incoming, k) && forall j :: k < j ==> !TextOverlap(held, incoming, j))
    && (held != [] && (forall j :: j > 0 ==> !TextOverlap(held, incoming, j)) ==>
          && (forall i :: 0 <= i < k ==> !PastHeld(held, incoming[i]))
          && (k < |incoming| ==> PastHeld(held, incoming[k])))
  }

  /**
   * What a merge does, without the code's own terms. Nothing held is touched. If some text
   * overlap matches, the largest is dropped. If none does, the words dropped each lie within
   * audio held, and the first one kept lies past all of it.
   */
  lemma MergeKeepsNewSpeech(held: seq<Word>, incoming: seq<Word>) returns (k: nat)
    ensures RightDrop(held, incoming, k) && Merged(held, incoming) == held + incoming[k..]
  {
    k := SeamDrop(held, incoming);
    if held != [] {
      var best := BestOverlap(held, incoming);
      if best == 0 {
        var end := MaxEnd(held);
        forall i | 0 <= i < |incoming|
          ensures Redecodes(incoming[i], end) <==> !PastHeld(held, incoming[i])
        {
          var last :| last in held && last.endMs == end;
        }
      }
    }
  }

  /** So with no text in common, a word past all audio held survives, and so does every word after it. */
  lemma WordsPastHeldSurvive(held: seq<Word>, incoming: seq<Word>, i: nat)
    requires i < |incoming| && PastHeld(held, incoming[i]) && held != []
    requires forall j :: j > 0 ==> !TextOverlap(held, incoming, j)
    ensures var kept := Merged(held, incoming)[|held|..];
            |incoming| - i <= |kept| && kept[|kept| - (|incoming| - i)..] == incoming[i..]
  {
    var k := MergeKeepsNewSpeech(held, incoming);
    assert k <= i;
    assert Merged(held, incoming)[|held|..] == incoming[k..];
  }

  // ---------------------------------------------------------------- the horizon

  /** Length of the front run of words that end by the horizon. */
  function CommitCut(pending: seq<Word>, h: Horizon): (k: nat)
    ensures k <= |pending|
    ensures forall i :: 0 <= i < k ==> h.Passes(pending[i])
    ensures k < |pending| ==> !h.Passes(pending[k])
  {
    if pending == [] || !h.Passes(pending[0]) then 0 else 1 + CommitCut(pending[1..], h)
  }

  lemma CommitCutUnique(pending: seq<Word>, h: Horizon, k: nat)
    requires k <= |pending|
    requires forall i :: 0 <= i < k ==> h.Passes(pending[i])
    requires k < |pending| ==> !h.Passes(pending[k])
    ensures k == CommitCut(pending, h)
  {
  }

  class Finalizer {
    var pending: seq<Word>
    var flushed: bool
    const noSpeechThreshold: real

    constructor (threshold: real)
      ensures pending == [] && !flushed && noSpeechThreshold == threshold
    {
      pending, flushed, noSpeechThreshold := [], false, threshold;
    }

    method Ingest(windowStartMs: nat, segs: seq<RawSegment>, h: Horizon) returns (out: seq<Word>)
      modifies this`pending
      ensures out + pending == Merged(old(pending), WordsOf(windowStartMs, segs, noSpeechThreshold))
      ensures |out| == CommitCut(out + pending, h)
    {
      var incoming := WordsFromSegments(windowStartMs, segs, noSpeechThreshold);
      Merge(incoming);
      out := FinalizeBefore(h);
    }

    method Flush() returns (out: seq<Word>)
      modifies this
      ensures flushed
      ensures old(flushed) ==> out == [] && pending == old(pending)
      ensures !old(flushed) ==> out == old(pending) && pending == []
    {
      if flushed {
        return [];
      }
      flushed := true;
      out := FinalizeBefore(Never);
      CommitCutUnique(old(pending), Never, |old(pending)|);
    }

    method Merge(incoming: seq<Word>)
      modifies this`pending
      ensures pending == Merged(old(pending), incoming)
    {
      if pending == [] {
        pending := incoming;
        return;
      }
      var maxk := if |pending| < |incoming| then |pending| else |incoming|;
      maxk := if maxk < MAX_OVERLAP then maxk else MAX_OVERLAP;
      var best, k := 0, maxk;
      while k > 0
        invariant k <= maxk && best == 0
        invariant forall j :: k < j ==> !TextOverlap(pending, incoming, j)
      {
        if forall i :: 0 <= i < k ==> pending[|pending| - k..][i].text == incoming[..k][i].text {
          assert TextOverlap(pending, incoming, k);
          best := k;
          break;
        }
        assert !TextOverlap(pending, incoming, k);
        k := k - 1;
      }
      assert best == BestOverlap(pending, incoming);
      if best > 0 {
        pending := pending + incoming[best..];
        return;
      }
      var pendingMaxEnd := MaxEnd(pending);
      var skip := 0;
      while skip < |incoming| && Redecodes(incoming[skip], pendingMaxEnd)
        invariant skip <= |incoming|
        invariant forall i :: 0 <= i < skip ==> Redecodes(incoming[i], pendingMaxEnd)
      {
        skip := skip + 1;
      }
      pending := pending + incoming[skip..];
    }

    /** Drains the front run of words that end by the horizon. */
    method FinalizeBefore(h: Horizon) returns (out: seq<Word>)
      modifies this`pending
      ensures out + pending == old(pending)
      ensures |out| == CommitCut(old(pending), h)
    {
      var cut := 0;
      while cut < |pending| && h.Passes(pending[cut])
        invariant cut <= |pending|
        invariant forall i :: 0 <= i < cut ==> h.Passes(pending[i])
      {
        cut := cut + 1;
      }
      CommitCutUnique(pending, h, cut);
      out, pending := pending[..cut], pending[cut..];
    }
  }
}
