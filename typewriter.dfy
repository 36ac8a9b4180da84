/** The typewriter playback of the animated code block: a fixed text is
    revealed a prefix at a time by a timer tick, with play/pause, replay and
    reset controls, and a status line derived from what has been typed. */
module Typewriter {
  import Lines

  function Min(a: int, b: int): int { if a <= b then a else b }

  /** `progress`: the typed share of the text, as a percentage. */
  function Progress(typed: nat, total: nat): (p: real)
    requires 0 < total && typed <= total
    ensures 0.0 <= p <= 100.0
    ensures p == 0.0 <==> typed == 0
    ensures p == 100.0 <==> typed == total
    ensures p * total as real == 100.0 * typed as real
  {
    (typed as real / total as real) * 100.0
  }

  /** Typing more never lowers the progress. */
  lemma ProgressMonotone(a: nat, b: nat, total: nat)
    requires 0 < total && a <= b <= total
    ensures Progress(a, total) <= Progress(b, total)
  {
    var qa, qb := a as real / total as real, b as real / total as real;
    assert qa * total as real == a as real && qb * total as real == b as real;
    if qa > qb {
      assert qa * total as real > qb * total as real;
    }
  }

  /** `lineCount` (and the `currentLine` the effect copies from it): the
      number of lines of the typed text, one more than its newlines. */
  function LineCount(text: string): (n: nat)
    ensures n == Lines.Count(text, '\n') + 1
  {
    Lines.SplitCount(text, '\n');
    |Lines.Split(text, '\n')|
  }

  /** The column shown in the status line: one more than the number of
      characters after the last newline (or in the whole text if it has no
      newline). */
  function Column(text: string): (c: nat)
    ensures 1 <= c <= |text| + 1
    ensures '\n' !in text[|text| - (c - 1)..]
    ensures c - 1 == |text| || text[|text| - c] == '\n'
  {
    var lines := Lines.Split(text, '\n');
    Lines.LastPiece(text, '\n');
    |lines[|lines| - 1]| + 1
  }

  /** The gutter: exactly the numbers 1 to the line count, in order. */
  function LineNumbers(text: string): (ns: seq<int>)
    ensures |ns| == Lines.Count(text, '\n') + 1
    ensures forall k :: k in ns <==> 1 <= k <= Lines.Count(text, '\n') + 1
    ensures forall i, j :: 0 <= i < j < |ns| ==> ns[i] < ns[j]
  {
    var n := LineCount(text);
    var ns := seq(n, i requires 0 <= i < n => i + 1);
    Enumerates(ns, n);
    ns
  }

  lemma Enumerates(ns: seq<int>, n: nat)
    requires |ns| == n && forall i :: 0 <= i < n ==> ns[i] == i + 1
    ensures forall k :: k in ns <==> 1 <= k <= n
  {
    forall k | 1 <= k <= n ensures k in ns {
      assert ns[k - 1] == k;
    }
  }

  /** The player state: the text typed so far (`displayedCode`), and the
      `isPlaying` and `isComplete` flags. The text to type is fixed. */
  class CodePlayer {
    const code: string
    var displayed: string
    var isPlaying: bool
    var isComplete: bool

    /** What is shown is always a prefix of the text; a complete run shows
        all of it and is not playing. */
    ghost predicate Valid()
      reads this
    {
      && |code| > 0
      && Lines.StartsWith(code, displayed)
      && (isComplete ==> displayed == code && !isPlaying)
    }

    constructor (code: string, autoPlay: bool)
      requires |code| > 0
      ensures Valid()
      ensures this.code == code && displayed == [] && isPlaying == autoPlay && !isComplete
    {
      this.code := code;
      displayed := [];
      isPlaying := autoPlay;
      isComplete := false;
    }

    /** One interval tick. The interval runs only while playing. `step` is
        the random `Math.floor(Math.random() * 2) + 1`, so 1 or 2. At the end
        of the text the run is marked complete and stops; otherwise the prefix
        grows by `step`, clamped to the text. */
    method Tick(step: nat)
      requires Valid() && isPlaying && (step == 1 || step == 2)
      modifies this
      ensures Valid()
      ensures old(|displayed|) >= |code| ==>
                displayed == old(displayed) && isComplete && !isPlaying
      ensures old(|displayed|) < |code| ==>
                && displayed == code[..Min(old(|displayed|) + step, |code|)]
                && isComplete == old(isComplete) && isPlaying == old(isPlaying)
    {
      if |displayed| >= |code| {
        isComplete := true;
        isPlaying := false;
        return;
      }
      var nextIndex := Min(|displayed| + step, |code|);
      displayed := code[..nextIndex];
    }

    /** `handlePlayPause`: from a complete run, start again from nothing;
        otherwise toggle playing. */
    method PlayPause()
      requires Valid()
      modifies this
      ensures Valid()
      ensures old(isComplete) ==> displayed == [] && !isComplete && isPlaying
      ensures !old(isComplete) ==>
                displayed == old(displayed) && !isComplete && isPlaying == !old(isPlaying)
    {
      if isComplete {
        displayed := [];
        isComplete := false;
        isPlaying := true;
      } else {
        isPlaying := !isPlaying;
      }
    }

    /** `handleReset`: back to nothing typed, stopped. */
    method Reset()
      requires Valid()
      modifies this
      ensures Valid()
      ensures displayed == [] && !isComplete && !isPlaying
    {
      displayed := [];
      isComplete := false;
      isPlaying := false;
    }

    /** The progress shown for the current state. */
    function CurrentProgress(): (p: real)
      reads this
      requires Valid()
      ensures 0.0 <= p <= 100.0
      ensures isComplete ==> p == 100.0
    {
      Progress(|displayed|, |code|)
    }
  }
}
