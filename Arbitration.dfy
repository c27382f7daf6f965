/** How `findFormat` picks a winner among the recognizers' verdicts on one probe window. */
module Arbitration {
  import opened Wrappers
  import opened ByteStreams
  import opened Formats

  /** A verdict that stops the search: at or above both thresholds. */
  predicate Decisive(s: MatchStrength, optimal: MatchStrength, minimal: MatchStrength)
  {
    s.AtLeast(minimal) && s.AtLeast(optimal)
  }

  /** The search from position `i` on, with `best` the index kept so far: verdicts below the minimal
      threshold are skipped, so is one no stronger than the kept one; otherwise it is kept, and if it
      also reaches the optimal threshold the search stops there. */
  function WinnerFrom(rs: seq<Recognizer>, w: seq<byte>, optimal: MatchStrength, minimal: MatchStrength,
                      i: nat, best: Option<nat>): (r: Option<nat>)
    requires i <= |rs| && (best.Some? ==> best.value < i)
    ensures r.Some? ==> r.value < |rs|
    ensures best.Some? ==> r.Some?
    decreases |rs| - i
  {
    if i == |rs| then best
    else
      var s := rs[i].judge(w);
      if !s.AtLeast(minimal) then WinnerFrom(rs, w, optimal, minimal, i + 1, best)
      else if best.Some? && rs[best.value].judge(w).AtLeast(s) then WinnerFrom(rs, w, optimal, minimal, i + 1, best)
      else if s.AtLeast(optimal) then Some(i)
      else WinnerFrom(rs, w, optimal, minimal, i + 1, Some(i))
  }

  /** The index of the winning recognizer for window `w`, if any. */
  function Winner(rs: seq<Recognizer>, w: seq<byte>, optimal: MatchStrength, minimal: MatchStrength): Option<nat>
  {
    WinnerFrom(rs, w, optimal, minimal, 0, None)
  }

  /** No recognizer reaches the minimal threshold. */
  predicate NoneAcceptable(rs: seq<Recognizer>, w: seq<byte>, minimal: MatchStrength)
  {
    forall j :: 0 <= j < |rs| ==> !rs[j].judge(w).AtLeast(minimal)
  }

  /** An independent description of the winner at index `k`: it reaches the minimal threshold, and
      either it is the first decisive verdict, or there is none and `k` is the first position of the
      strongest verdict. */
  predicate Chosen(rs: seq<Recognizer>, w: seq<byte>, optimal: MatchStrength, minimal: MatchStrength, k: nat)
  {
    && k < |rs|
    && rs[k].judge(w).AtLeast(minimal)
    && if Decisive(rs[k].judge(w), optimal, minimal) then
         forall j :: 0 <= j < k ==> !Decisive(rs[j].judge(w), optimal, minimal)
       else
         && (forall j :: 0 <= j < |rs| ==> !Decisive(rs[j].judge(w), optimal, minimal))
         && (forall j :: 0 <= j < |rs| ==> rs[k].judge(w).AtLeast(rs[j].judge(w)))
         && (forall j :: 0 <= j < k ==> !rs[j].judge(w).AtLeast(rs[k].judge(w)))
  }

  /** What holds after the search has looked at positions `0..i` without stopping. */
  predicate Scanned(rs: seq<Recognizer>, w: seq<byte>, optimal: MatchStrength, minimal: MatchStrength,
                    i: nat, best: Option<nat>)
    requires i <= |rs|
  {
    && (forall j :: 0 <= j < i ==> !Decisive(rs[j].judge(w), optimal, minimal))
    && (best.None? ==> forall j :: 0 <= j < i ==> !rs[j].judge(w).AtLeast(minimal))
    && (best.Some? ==>
          && best.value < i
          && rs[best.value].judge(w).AtLeast(minimal)
          && (forall j :: 0 <= j < i ==> rs[best.value].judge(w).AtLeast(rs[j].judge(w)))
          && (forall j :: 0 <= j < best.value ==> !rs[j].judge(w).AtLeast(rs[best.value].judge(w))))
  }

  lemma {:induction false} WinnerFromSound(rs: seq<Recognizer>, w: seq<byte>, optimal: MatchStrength,
                                           minimal: MatchStrength, i: nat, best: Option<nat>)
    requires i <= |rs| && Scanned(rs, w, optimal, minimal, i, best)
    ensures WinnerFrom(rs, w, optimal, minimal, i, best).Some? ==>
      Chosen(rs, w, optimal, minimal, WinnerFrom(rs, w, optimal, minimal, i, best).value)
    ensures WinnerFrom(rs, w, optimal, minimal, i, best).None? ==> NoneAcceptable(rs, w, minimal)
    decreases |rs| - i
  {
    if i == |rs| {
      ScannedAll(rs, w, optimal, minimal, best);
      return;
    }
    var s := rs[i].judge(w);
    if !s.AtLeast(minimal) || (best.Some? && rs[best.value].judge(w).AtLeast(s)) {
      SkipKeepsScanned(rs, w, optimal, minimal, i, best);
      WinnerFromSound(rs, w, optimal, minimal, i + 1, best);
    } else if s.AtLeast(optimal) {
      DecisiveIsChosen(rs, w, optimal, minimal, i, best);
    } else {
      TakeKeepsScanned(rs, w, optimal, minimal, i, best);
      WinnerFromSound(rs, w, optimal, minimal, i + 1, Some(i));
    }
  }

  /** A search that ran to the end without stopping kept the described winner, or nothing. */
  lemma ScannedAll(rs: seq<Recognizer>, w: seq<byte>, optimal: MatchStrength, minimal: MatchStrength,
                   best: Option<nat>)
    requires Scanned(rs, w, optimal, minimal, |rs|, best)
    ensures best.Some? ==> Chosen(rs, w, optimal, minimal, best.value)
    ensures best.None? ==> NoneAcceptable(rs, w, minimal)
  {
    if best.Some? {
      assert !Decisive(rs[best.value].judge(w), optimal, minimal);
    }
  }

  /** Skipping a verdict below the minimal threshold, or no stronger than the kept one. */
  lemma SkipKeepsScanned(rs: seq<Recognizer>, w: seq<byte>, optimal: MatchStrength, minimal: MatchStrength,
                         i: nat, best: Option<nat>)
    requires i < |rs| && Scanned(rs, w, optimal, minimal, i, best)
    requires !rs[i].judge(w).AtLeast(minimal) || (best.Some? && rs[best.value].judge(w).AtLeast(rs[i].judge(w)))
    ensures Scanned(rs, w, optimal, minimal, i + 1, best)
  {
    if best.Some? {
      assert !Decisive(rs[best.value].judge(w), optimal, minimal);
    }
  }

  /** Stopping at the first decisive verdict. */
  lemma DecisiveIsChosen(rs: seq<Recognizer>, w: seq<byte>, optimal: MatchStrength, minimal: MatchStrength,
                         i: nat, best: Option<nat>)
    requires i < |rs| && Scanned(rs, w, optimal, minimal, i, best)
    requires Decisive(rs[i].judge(w), optimal, minimal)
    ensures Chosen(rs, w, optimal, minimal, i)
  {
  }

  /** Keeping an acceptable verdict that beats the kept one but is not decisive. */
  lemma TakeKeepsScanned(rs: seq<Recognizer>, w: seq<byte>, optimal: MatchStrength, minimal: MatchStrength,
                         i: nat, best: Option<nat>)
    requires i < |rs| && Scanned(rs, w, optimal, minimal, i, best)
    requires rs[i].judge(w).AtLeast(minimal) && !rs[i].judge(w).AtLeast(optimal)
    requires best.Some? ==> !rs[best.value].judge(w).AtLeast(rs[i].judge(w))
    ensures Scanned(rs, w, optimal, minimal, i + 1, Some(i))
  {
  }

  /** At most one index fits the description. */
  lemma ChosenIsUnique(rs: seq<Recognizer>, w: seq<byte>, optimal: MatchStrength, minimal: MatchStrength,
                       k1: nat, k2: nat)
    requires Chosen(rs, w, optimal, minimal, k1) && Chosen(rs, w, optimal, minimal, k2)
    ensures k1 == k2
  {
  }

  /** The search picks exactly the described index, and finds nothing exactly when no verdict
      reaches the minimal threshold. */
  lemma WinnerCharacterized(rs: seq<Recognizer>, w: seq<byte>, optimal: MatchStrength, minimal: MatchStrength)
    ensures Winner(rs, w, optimal, minimal).None? <==> NoneAcceptable(rs, w, minimal)
    ensures forall k: nat :: Winner(rs, w, optimal, minimal) == Some(k) <==> Chosen(rs, w, optimal, minimal, k)
  {
    WinnerFromSound(rs, w, optimal, minimal, 0, None);
    var r := Winner(rs, w, optimal, minimal);
    forall k: nat | Chosen(rs, w, optimal, minimal, k)
      ensures r == Some(k)
    {
      assert !NoneAcceptable(rs, w, minimal);
      ChosenIsUnique(rs, w, optimal, minimal, r.value, k);
    }
    if r.Some? {
      assert rs[r.value].judge(w).AtLeast(minimal);
    }
  }

  /** Short-circuit: the first recognizer reaching both thresholds wins, even if a later one would
      have been stronger. */
  lemma FirstDecisiveWins(rs: seq<Recognizer>, w: seq<byte>, optimal: MatchStrength, minimal: MatchStrength, k: nat)
    requires k < |rs| && Decisive(rs[k].judge(w), optimal, minimal)
    requires forall j :: 0 <= j < k ==> !Decisive(rs[j].judge(w), optimal, minimal)
    ensures Winner(rs, w, optimal, minimal) == Some(k)
  {
    WinnerCharacterized(rs, w, optimal, minimal);
    assert Chosen(rs, w, optimal, minimal, k);
  }
}
