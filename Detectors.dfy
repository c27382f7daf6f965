/** The format detector (Java: `DataFormatDetector`): an ordered list of recognizers and the
    detection policy, immutable; `findFormat` probes an input and builds a match result. */
module Detectors {
  import opened Wrappers
  import opened ByteStreams
  import opened Formats
  import opened Arbitration
  import opened Matchers
  import opened NameLists

  /** Bytes read ahead from a stream when nothing else is configured. */
  const DEFAULT_MAX_INPUT_LOOKAHEAD: nat := 64

  function NamesOf(rs: seq<Recognizer>): (names: seq<string>)
    ensures |names| == |rs| && forall k :: 0 <= k < |rs| ==> names[k] == rs[k].name
  {
    if rs == [] then [] else [rs[0].name] + NamesOf(rs[1..])
  }

  class Detector {
    const recognizers: seq<Recognizer>
    const optimal: MatchStrength
    const minimal: MatchStrength
    const maxLookahead: nat

    /** A detector with the default policy: optimal SOLID, minimal WEAK, the default lookahead. */
    constructor (recognizers: seq<Recognizer>)
      ensures this.recognizers == recognizers
      ensures optimal == SolidMatch && minimal == WeakMatch && maxLookahead == DEFAULT_MAX_INPUT_LOOKAHEAD
    {
      this.recognizers := recognizers;
      optimal, minimal, maxLookahead := SolidMatch, WeakMatch, DEFAULT_MAX_INPUT_LOOKAHEAD;
    }

    constructor Configured(recognizers: seq<Recognizer>, optimal: MatchStrength, minimal: MatchStrength,
                           maxLookahead: nat)
      ensures this.recognizers == recognizers && this.optimal == optimal
      ensures this.minimal == minimal && this.maxLookahead == maxLookahead
    {
      this.recognizers, this.optimal, this.minimal, this.maxLookahead :=
        recognizers, optimal, minimal, maxLookahead;
    }

    /** `withOptimalMatch`: this very detector when nothing changes, otherwise a new one differing
        only in the optimal threshold. */
    method WithOptimalMatch(s: MatchStrength) returns (d: Detector)
      ensures s == optimal ==> d == this
      ensures s != optimal ==> fresh(d)
      ensures d.optimal == s && d.recognizers == recognizers
      ensures d.minimal == minimal && d.maxLookahead == maxLookahead
    {
      if s == optimal {
        return this;
      }
      d := new Detector.Configured(recognizers, s, minimal, maxLookahead);
    }

    /** `withMinimalMatch`: the same law for the minimal threshold. */
    method WithMinimalMatch(s: MatchStrength) returns (d: Detector)
      ensures s == minimal ==> d == this
      ensures s != minimal ==> fresh(d)
      ensures d.minimal == s && d.recognizers == recognizers
      ensures d.optimal == optimal && d.maxLookahead == maxLookahead
    {
      if s == minimal {
        return this;
      }
      d := new Detector.Configured(recognizers, optimal, s, maxLookahead);
    }

    /** `withMaxInputLookahead`: the same law for the lookahead. */
    method WithMaxInputLookahead(n: nat) returns (d: Detector)
      ensures n == maxLookahead ==> d == this
      ensures n != maxLookahead ==> fresh(d)
      ensures d.maxLookahead == n && d.recognizers == recognizers
      ensures d.optimal == optimal && d.minimal == minimal
    {
      if n == maxLookahead {
        return this;
      }
      d := new Detector.Configured(recognizers, optimal, minimal, n);
    }

    /** `toString()` */
    function ToString(): (s: string)
      ensures |s| >= 2 && s[0] == '[' && s[|s| - 1] == ']'
      ensures recognizers == [] ==> s == "[]"
    {
      Render(NamesOf(recognizers))
    }

    /** The part of an input the recognizers are shown: at most `maxLookahead` leading bytes. */
    function Probe(input: seq<byte>): (w: seq<byte>)
      ensures |w| == Min(|input|, maxLookahead) && w == input[..|w|]
    {
      input[..Min(|input|, maxLookahead)]
    }

    /** The recognizer that wins on window `w`, if any. */
    function ChosenRecognizer(w: seq<byte>): Option<Recognizer>
    {
      var k := Winner(recognizers, w, optimal, minimal);
      if k.Some? then Some(recognizers[k.value]) else None
    }

    /** The strength reported for window `w`: the winner's verdict, INCONCLUSIVE without one. */
    function ResultStrength(w: seq<byte>): MatchStrength
    {
      var k := Winner(recognizers, w, optimal, minimal);
      if k.Some? then recognizers[k.value].judge(w) else Inconclusive
    }

    /** The arbitration loop of `findFormat`: asks the recognizers in order, skips verdicts below the
        minimal threshold or no stronger than the best so far, and stops at the first verdict that
        also reaches the optimal threshold. */
    method FindBest(w: seq<byte>) returns (best: Option<Recognizer>, bestStrength: Option<MatchStrength>)
      ensures best == ChosenRecognizer(w)
      ensures bestStrength.Some? <==> best.Some?
      ensures StrengthOrInconclusive(bestStrength) == ResultStrength(w)
    {
      best, bestStrength := None, None;
      ghost var bestIndex: Option<nat> := None;
      for i := 0 to |recognizers|
        invariant bestIndex.Some? ==> bestIndex.value < i
        invariant WinnerFrom(recognizers, w, optimal, minimal, i, bestIndex) == Winner(recognizers, w, optimal, minimal)
        invariant best == (if bestIndex.Some? then Some(recognizers[bestIndex.value]) else None)
        invariant bestStrength == (if bestIndex.Some? then Some(recognizers[bestIndex.value].judge(w)) else None)
      {
        var strength := recognizers[i].judge(w);
        if !strength.AtLeast(minimal) {
          continue;
        }
        if best.Some? && bestStrength.value.AtLeast(strength) {
          continue;
        }
        best, bestStrength := Some(recognizers[i]), Some(strength);
        bestIndex := Some(i);
        if strength.AtLeast(optimal) {
          break;
        }
      }
    }

    /** `findFormat(byte[])`: the whole array is the buffered window, no stream is kept. */
    method FindFormat(input: seq<byte>) returns (m: Matcher)
      ensures m.Valid() && m.original.None? && m.Window() == input
      ensures m.recognizer == ChosenRecognizer(Probe(input)) && m.strength == ResultStrength(Probe(input))
    {
      var best, strength := FindBest(Probe(input));
      var r := NewMatcher(None, input, 0, |input|, best, strength);
      assert input[0..|input|] == input;
      m := r.value;
    }

    /** `findFormat(byte[], offset, len)`: the window `input[offset..offset + len]`; a window that does
        not fit the array is refused as the match constructor refuses it. */
    method FindFormatRange(input: seq<byte>, offset: int, length: int) returns (r: Result<Matcher, MatcherError>)
      ensures r.Success? <==> 0 <= offset && 0 <= length && offset + length <= |input|
      ensures r.Failure? ==> r.error == IllegalStartLength(offset, length, |input|)
      ensures r.Success? ==>
        && r.value.Valid() && r.value.original.None? && r.value.Window() == input[offset..offset + length]
        && r.value.recognizer == ChosenRecognizer(Probe(r.value.Window()))
        && r.value.strength == ResultStrength(Probe(r.value.Window()))
    {
      if offset < 0 || length < 0 || offset + length > |input| {
        return Failure(IllegalStartLength(offset, length, |input|));
      }
      var best, strength := FindBest(Probe(input[offset..offset + length]));
      r := NewMatcher(None, input, offset, length, best, strength);
    }

    /** `findFormat(InputStream)`: reads up to `maxLookahead` bytes into a fresh buffer (retrying short
        reads until the buffer is full or the stream ends; nothing is read when there are no
        recognizers to ask) and keeps the stream, so window plus stream still hold the whole input. */
    method FindFormatStream(input: ByteStream) returns (m: Matcher)
      requires input.Valid()
      modifies input
      ensures input.Valid() && m.Valid() && m.OriginalValid()
      ensures m.original == Some(input) && m.start == 0 && |m.buffer| == maxLookahead
      ensures m.Window() + input.Remaining() == old(input.Remaining())
      ensures recognizers != [] ==> m.Window() == Probe(old(input.Remaining()))
      ensures recognizers == [] ==> m.Window() == []
      ensures m.recognizer == ChosenRecognizer(Probe(old(input.Remaining())))
      ensures m.strength == ResultStrength(Probe(old(input.Remaining())))
    {
      var buf: array<byte>;
      var filled: nat;
      if recognizers != [] {
        buf, filled := ReadAhead(input, maxLookahead);
      } else {
        buf, filled := new byte[maxLookahead], 0;
      }
      var best, strength := FindBest(buf[..filled]);
      var r := NewMatcher(Some(input), buf[..], 0, filled, best, strength);
      m := r.value;
    }
  }

  /** What a detection outcome means on window `w`: a format is reported exactly when some recognizer
      reaches the minimal threshold; the reported recognizer is the arbitration winner and its own
      verdict, at least minimal, is the reported strength; with no winner the strength is
      INCONCLUSIVE. */
  lemma OutcomeMeaning(d: Detector, w: seq<byte>)
    ensures d.ChosenRecognizer(w).Some? <==>
              exists k :: 0 <= k < |d.recognizers| && d.recognizers[k].judge(w).AtLeast(d.minimal)
    ensures d.ChosenRecognizer(w).None? ==> d.ResultStrength(w) == Inconclusive
    ensures d.ChosenRecognizer(w).Some? ==>
              && d.ChosenRecognizer(w).value in d.recognizers
              && d.ResultStrength(w) == d.ChosenRecognizer(w).value.judge(w)
              && d.ResultStrength(w).AtLeast(d.minimal)
  {
    WinnerCharacterized(d.recognizers, w, d.optimal, d.minimal);
  }

  /** The first recognizer whose verdict reaches both thresholds wins, whatever follows it. */
  lemma FirstDecisiveRecognizerWins(d: Detector, w: seq<byte>, k: nat)
    requires k < |d.recognizers| && Decisive(d.recognizers[k].judge(w), d.optimal, d.minimal)
    requires forall j :: 0 <= j < k ==> !Decisive(d.recognizers[j].judge(w), d.optimal, d.minimal)
    ensures d.ChosenRecognizer(w) == Some(d.recognizers[k])
    ensures d.ResultStrength(w) == d.recognizers[k].judge(w)
  {
    FirstDecisiveWins(d.recognizers, w, d.optimal, d.minimal, k);
  }

  /** `toString()` lists the recognizers' format names in order, so it can be read back. */
  lemma ToStringListsNames(d: Detector)
    requires forall k :: 0 <= k < |d.recognizers| ==> PlainName(d.recognizers[k].name)
    ensures Parse(d.ToString()) == Some(NamesOf(d.recognizers))
  {
    RenderRoundTrip(NamesOf(d.recognizers));
  }

  /** Fills a fresh buffer of `size` bytes from `input`, retrying short reads until the buffer is
      full or the stream reports its end (Java: the buffering input accessor's `hasMoreBytes`). */
  method ReadAhead(input: ByteStream, size: nat) returns (buf: array<byte>, filled: nat)
    requires input.Valid()
    modifies input
    ensures fresh(buf) && buf.Length == size && input.Valid()
    ensures filled == Min(|old(input.Remaining())|, size)
    ensures buf[..filled] == old(input.Remaining())[..filled]
    ensures input.Remaining() == old(input.Remaining())[filled..]
  {
    ghost var all := input.Remaining();
    buf := new byte[size];
    filled := 0;
    while filled < buf.Length
      invariant input.Valid() && filled <= buf.Length && filled <= |all|
      invariant buf[..filled] == all[..filled] && input.Remaining() == all[filled..]
      decreases buf.Length - filled
    {
      ghost var before := buf[..];
      var count := input.ReadInto(buf, filled, buf.Length - filled);
      FillStep(all, before, buf[..], filled, buf.Length - filled, count, input.Remaining());
      if count <= 0 {
        break;
      }
      filled := filled + count;
    }
  }

  /** One call of the fill loop's bulk read, seen against the whole input `all`: a positive count
      extends the filled prefix of the buffer, any other count means the input had ended. */
  lemma FillStep(all: seq<byte>, oldBuf: seq<byte>, newBuf: seq<byte>, filled: nat, len: nat, n: int,
                 after: seq<byte>)
    requires filled <= |all| && filled + len <= |oldBuf| == |newBuf| && len > 0
    requires oldBuf[..filled] == all[..filled]
    requires BulkRead(all[filled..], after, oldBuf, newBuf, filled, len, n)
    ensures n <= 0 ==> filled == |all| && newBuf == oldBuf && after == []
    ensures n > 0 ==> filled + n <= |all| && filled + n <= filled + len
    ensures n > 0 ==> newBuf[..filled + n] == all[..filled + n] && after == all[filled + n..]
  {
    if n > 0 {
      var before := all[filled..];
      assert newBuf[..filled + n] == oldBuf[..filled] + before[..n];
      assert all[..filled + n] == all[..filled] + before[..n];
    }
  }
}
