/** Drafting by prompt lookup (runtime/speculative/prompt_lookup_draft.cpp). */
module PromptLookup {
  import opened StageSession
  import opened Wrappers

  /** An earlier occurrence of the last ngram tokens, not overlapping them. */
  predicate Occurs(history: seq<Token>, ngram: nat, candidate: nat) {
    && ngram <= |history|
    && candidate + ngram <= |history| - ngram
    && history[candidate..candidate + ngram] == history[|history| - ngram..]
  }

  /** The latest occurrence below a bound. */
  function Latest(history: seq<Token>, ngram: nat, bound: nat): Option<nat>
    decreases bound
  {
    if bound == 0 then None
    else if Occurs(history, ngram, bound - 1) then Some(bound - 1)
    else Latest(history, ngram, bound - 1)
  }

  function Continuation(history: seq<Token>, start: nat, maxTokens: nat): seq<Token>
    requires start <= |history|
  {
    history[start..start + (if maxTokens < |history| - start then maxTokens else |history| - start)]
  }

  /** Try n-grams from the given length down to the shortest. */
  function Search(history: seq<Token>, ngram: nat, minNgram: nat, maxTokens: nat): (r: seq<Token>)
    requires 0 < minNgram && ngram < |history|
    ensures |r| <= maxTokens
    decreases ngram
  {
    if ngram < minNgram then []
    else
      match Latest(history, ngram, |history| - ngram)
      case Some(candidate) =>
        LatestOccurs(history, ngram, |history| - ngram);
        Continuation(history, candidate + ngram, maxTokens)
      case None => Search(history, ngram - 1, minNgram, maxTokens)
  }

  function Proposal(maxNgram: nat, minNgram: nat, history: seq<Token>, maxTokens: nat): (r: seq<Token>)
    requires 0 < minNgram <= maxNgram
    ensures |r| <= maxTokens
  {
    if maxTokens == 0 || |history| <= minNgram then []
    else Search(history, if maxNgram < |history| - 1 then maxNgram else |history| - 1, minNgram, maxTokens)
  }

  lemma {:induction false} LatestOccurs(history: seq<Token>, ngram: nat, bound: nat)
    ensures match Latest(history, ngram, bound)
            case Some(c) => c < bound && Occurs(history, ngram, c) && forall d :: c < d < bound ==> !Occurs(history, ngram, d)
            case None => forall d :: 0 <= d < bound ==> !Occurs(history, ngram, d)
    decreases bound
  {
    if bound > 0 && !Occurs(history, ngram, bound - 1) {
      LatestOccurs(history, ngram, bound - 1);
    }
  }

  /** No suffix with a length in the range (low, high] is repeated. */
  ghost predicate NoneOccurs(history: seq<Token>, low: int, high: int) {
    forall n: nat, d: nat :: low < n <= high ==> !Occurs(history, n, d)
  }

  /** The suffix of length n is repeated, for the last time at c. */
  ghost predicate LastOccurs(history: seq<Token>, n: nat, c: nat) {
    Occurs(history, n, c) && forall d: nat :: c < d ==> !Occurs(history, n, d)
  }

  lemma OccursBound(history: seq<Token>, n: nat, c: nat)
    ensures Occurs(history, n, c) && n > 0 ==> c + n < |history| && c < |history| - n
  {
  }

  /** A draft copies what followed the latest occurrence of the longest repeated suffix, and is
      empty exactly when no suffix of an allowed length is repeated. */
  lemma {:induction false} SearchFindsLongest(history: seq<Token>, ngram: nat, minNgram: nat, maxTokens: nat) returns (n: nat, c: nat)
    requires 0 < minNgram && ngram < |history| && maxTokens > 0
    ensures var r := Search(history, ngram, minNgram, maxTokens);
            if r == [] then NoneOccurs(history, minNgram - 1, ngram)
            else minNgram <= n <= ngram && LastOccurs(history, n, c) && NoneOccurs(history, n, ngram)
                 && c + n <= |history| && r == Continuation(history, c + n, maxTokens)
    decreases ngram
  {
    hide Occurs;
    n, c := 0, 0;
    if ngram >= minNgram {
      var bound := |history| - ngram;
      LatestOccurs(history, ngram, bound);
      forall d: nat ensures Occurs(history, ngram, d) ==> d + ngram < |history| && d < bound { OccursBound(history, ngram, d); }
      match Latest(history, ngram, bound)
      case Some(found) => n, c := ngram, found;
      case None => n, c := SearchFindsLongest(history, ngram - 1, minNgram, maxTokens);
    }
  }

  lemma LatestStep(history: seq<Token>, ngram: nat, bound: nat)
    ensures Latest(history, ngram, bound) ==
            if bound == 0 then None else if Occurs(history, ngram, bound - 1) then Some(bound - 1) else Latest(history, ngram, bound - 1)
  {
  }

  lemma SearchStep(history: seq<Token>, ngram: nat, minNgram: nat, maxTokens: nat)
    requires 0 < minNgram && ngram < |history|
    ensures ngram < minNgram ==> Search(history, ngram, minNgram, maxTokens) == []
    ensures ngram >= minNgram ==>
              match Latest(history, ngram, |history| - ngram)
              case Some(c) => c + ngram <= |history| && Search(history, ngram, minNgram, maxTokens) == Continuation(history, c + ngram, maxTokens)
              case None => Search(history, ngram, minNgram, maxTokens) == Search(history, ngram - 1, minNgram, maxTokens)
  {
    LatestOccurs(history, ngram, |history| - ngram);
  }

  lemma ContinuationIs(history: seq<Token>, start: nat, maxTokens: nat)
    requires start <= |history|
    ensures Continuation(history, start, maxTokens) ==
            history[start..start + if maxTokens < |history| - start then maxTokens else |history| - start]
  {
  }

  method Propose(maxNgram: nat, minNgram: nat, history: seq<Token>, maxTokens: nat) returns (r: seq<Token>)
    requires 0 < minNgram <= maxNgram
    ensures r == Proposal(maxNgram, minNgram, history, maxTokens)
  {
    if maxTokens == 0 || |history| <= minNgram {
      return [];
    }
    hide Latest, Search, Occurs, Continuation;
    var ngram := if maxNgram < |history| - 1 then maxNgram else |history| - 1;
    assert Proposal(maxNgram, minNgram, history, maxTokens) == Search(history, ngram, minNgram, maxTokens);
    hide Proposal;
    while ngram >= minNgram
      invariant 0 <= ngram < |history|
      invariant Proposal(maxNgram, minNgram, history, maxTokens) == Search(history, ngram, minNgram, maxTokens)
    {
      var suffixStart := |history| - ngram;
      var candidate := suffixStart;
      while candidate > 0
        invariant 0 <= candidate <= suffixStart
        invariant Latest(history, ngram, suffixStart) == Latest(history, ngram, candidate)
      {
        LatestStep(history, ngram, candidate);
        candidate := candidate - 1;
        if Occurs(history, ngram, candidate) {
          SearchStep(history, ngram, minNgram, maxTokens);
          var start := candidate + ngram;
          var count := if maxTokens < |history| - start then maxTokens else |history| - start;
          ContinuationIs(history, start, maxTokens);
          return history[start..start + count];
        }
      }
      LatestStep(history, ngram, 0);
      SearchStep(history, ngram, minNgram, maxTokens);
      ngram := ngram - 1;
    }
    SearchStep(history, ngram, minNgram, maxTokens);
    r := [];
  }

  // --- What a draft is ------------------------------------------------------------------------

  /** The last n tokens also stand at c, wholly before them. */
  ghost predicate Repeats(history: seq<Token>, n: nat, c: nat) {
    var start := |history| - n;
    c + n <= start && forall i :: start <= i < |history| ==> history[i] == history[i - start + c]
  }

  lemma RepeatsOccurs(history: seq<Token>, n: nat, c: nat)
    ensures Occurs(history, n, c) <==> Repeats(history, n, c)
  {
    if c + 2 * n <= |history| {
      var there, here := history[c..c + n], history[|history| - n..];
      if Repeats(history, n, c) {
        forall k | 0 <= k < n ensures there[k] == here[k] {
          assert here[k] == history[|history| - n + k];
        }
      }
      if there == here {
        var start := |history| - n;
        forall i | start <= i < |history| ensures history[i] == history[i - start + c] {
          assert here[i - start] == there[i - start];
        }
      }
    }
  }

  /** The longest repeated suffix of an allowed length, at its last place. */
  ghost predicate BestMatch(maxNgram: nat, minNgram: nat, history: seq<Token>, n: nat, c: nat) {
    && minNgram <= n <= maxNgram && Repeats(history, n, c)
    && forall m: nat, d: nat :: m <= maxNgram && Repeats(history, m, d) ==> m < n || (m == n && d <= c)
  }

  /** Every token of a draft: it follows the best match one for one, as far as there is room, and there is
      a draft exactly when tokens are asked for and some suffix of an allowed length is repeated. */
  lemma DraftCopies(maxNgram: nat, minNgram: nat, history: seq<Token>, maxTokens: nat) returns (n: nat, c: nat)
    requires 0 < minNgram <= maxNgram
    ensures var r := Proposal(maxNgram, minNgram, history, maxTokens);
            && (r != [] <==> maxTokens > 0 && exists m: nat, d: nat :: minNgram <= m <= maxNgram && Repeats(history, m, d))
            && (r != [] ==>
                  && BestMatch(maxNgram, minNgram, history, n, c)
                  && |r| == (if maxTokens < |history| - c - n then maxTokens else |history| - c - n)
                  && forall i :: 0 <= i < |r| ==> r[i] == history[c + n + i])
  {
    hide Occurs, Repeats, Search;
    n, c := 0, 0;
    forall m: nat, d: nat ensures Occurs(history, m, d) <==> Repeats(history, m, d) { RepeatsOccurs(history, m, d); }
    forall m: nat, d: nat ensures Occurs(history, m, d) ==> d + 2 * m <= |history| { OccursFits(history, m, d); }
    if maxTokens > 0 && |history| > minNgram {
      var ngram := if maxNgram < |history| - 1 then maxNgram else |history| - 1;
      n, c := SearchFindsLongest(history, ngram, minNgram, maxTokens);
    }
  }

  lemma OccursFits(history: seq<Token>, n: nat, c: nat)
    ensures Occurs(history, n, c) ==> c + 2 * n <= |history|
  {
  }
}
