/** The situations the format tests set up, replayed on the model. Recognizers are stubs that judge
    only the first byte, standing in for the JSON recognizer's verdicts on the tests' inputs. */
module Scenarios {
  import opened Wrappers
  import opened ByteStreams
  import opened MergedStreams
  import opened Formats
  import opened Matchers
  import opened Detectors
  import NameLists

  /** ASCII text as bytes. */
  function Ascii(s: string): (b: seq<byte>)
    requires forall i :: 0 <= i < |s| ==> s[i] as int < 256
    ensures |b| == |s| && forall i :: 0 <= i < |s| ==> b[i] as int == s[i] as int
  {
    seq(|s|, i requires 0 <= i < |s| => s[i] as int as byte)
  }

  function Zeros(n: nat): (b: seq<byte>)
    ensures |b| == n && forall i :: 0 <= i < n ==> b[i] == 0
  {
    seq(n, i => 0)
  }

  /** A stand-in for the JSON recognizer on the tests' inputs: an array or object start is a SOLID
      match, a string start a WEAK one, anything else no match; no bytes at all is inconclusive. */
  function JsonVerdict(w: seq<byte>): (s: MatchStrength)
    ensures w != [] && (w[0] == '[' as int as byte || w[0] == '{' as int as byte) ==> s == SolidMatch
    ensures w != [] && w[0] == '"' as int as byte ==> s == WeakMatch
    ensures w != [] && w[0] == '<' as int as byte ==> s == NoMatch
  {
    if w == [] then Inconclusive
    else if w[0] == '[' as int as byte || w[0] == '{' as int as byte then SolidMatch
    else if w[0] == '"' as int as byte then WeakMatch
    else NoMatch
  }

  /** Detection from a stream followed by reading the chosen format's parser input to the end: the
      outcome is the arbitration on the first `maxLookahead` bytes, and a parser, when one is made,
      receives the whole input, the detection read-ahead included. */
  method DetectThenParseStream(d: Detector, input: seq<byte>)
    returns (winner: Option<Recognizer>, name: Option<string>, strength: MatchStrength, seen: Option<seq<byte>>)
    ensures winner == d.ChosenRecognizer(d.Probe(input))
    ensures strength == d.ResultStrength(d.Probe(input))
    ensures name == (if winner.Some? then Some(winner.value.name) else None)
    ensures seen.Some? <==> winner.Some?
    ensures seen.Some? ==> seen.value == input
  {
    var stream := new ByteStream.Over(input);
    var m := d.FindFormatStream(stream);
    winner, name, strength := m.recognizer, m.MatchedFormatName(), m.strength;
    var p := CreateParserWithMatch(m);
    if p.Some? {
      var all := p.value.input.stream.merged.ReadAll();
      seen := Some(all);
    } else {
      seen := None;
    }
  }

  /** The three ways of calling `findFormat` on the same bytes agree on recognizer and strength. */
  method ThreeCallStyles(d: Detector, input: seq<byte>)
    returns (winners: seq<Option<Recognizer>>, strengths: seq<MatchStrength>)
    ensures |winners| == 3 && winners[0] == winners[1] == winners[2] == d.ChosenRecognizer(d.Probe(input))
    ensures |strengths| == 3 && strengths[0] == strengths[1] == strengths[2] == d.ResultStrength(d.Probe(input))
  {
    var m1 := d.FindFormat(input);
    var r2 := d.FindFormatRange(input, 0, |input|);
    assert input[0..|input|] == input;
    var m2 := r2.value;
    var stream := new ByteStream.Over(input);
    var m3 := d.FindFormatStream(stream);
    winners := [m1.recognizer, m2.recognizer, m3.recognizer];
    strengths := [m1.strength, m2.strength, m3.strength];
  }

  /** A match over an empty window with an original stream of two bytes: its data stream is the
      merged kind and reports nothing available, although the stream still holds two bytes. */
  method DataStreamWithOriginalStream() returns (available: nat, merged: bool, total: nat)
    ensures available == 0 && merged && total == 2
  {
    var original := new ByteStream.Over(Zeros(2));
    var r := NewMatcher(Some(original), Zeros(2), 0, 0, None, Some(WeakMatch));
    var ds := GetDataStream(r.value);
    available, merged, total := ds.Available(), ds.Merged?, |ds.Content()|;
  }

  /** A merged stream over a two-byte window and a two-byte tail: `available()` counts the window
      down, and once the window is drained and dropped it reports the tail. */
  method MergedAvailableAfterReads() returns (before: nat, afterOne: nat, afterTwo: nat)
    ensures before == 2 && afterOne == 1 && afterTwo == 2
  {
    var bytes: seq<byte> := [7, 9];
    var tail := new ByteStream.Over(bytes);
    var merged := new MergedStream(tail, bytes, 0, 2);
    assert merged.Pending() == [7, 9];
    before := merged.Available();
    var c := merged.Read();
    assert merged.Pending() == [9];
    afterOne := merged.Available();
    c := merged.Read();
    afterTwo := merged.Available();
  }

  /** A match over the empty window at the end of a two-byte buffer, with no original stream: its
      data stream is a plain view with nothing available. */
  method DataStreamNoOriginalStream() returns (available: nat, plain: bool)
    ensures available == 0 && plain
  {
    var r := NewMatcher(None, Zeros(2), 2, 0, None, Some(WeakMatch));
    var ds := GetDataStream(r.value);
    available, plain := ds.Available(), ds.Plain?;
  }

  /** Windows that do not fit their buffer are refused: past the end, negative start, negative
      length, both negative. */
  lemma IllegalWindowsRejected(json: Recognizer)
    ensures NewMatcher(None, Zeros(2), 2, 1, Some(json), Some(NoMatch)) == Failure(IllegalStartLength(2, 1, 2))
    ensures NewMatcher(None, Zeros(10), -10, 1, Some(json), Some(NoMatch)) == Failure(IllegalStartLength(-10, 1, 10))
    ensures NewMatcher(None, Zeros(10), 5, -1, Some(json), Some(NoMatch)) == Failure(IllegalStartLength(5, -1, 10))
    ensures NewMatcher(None, Zeros(10), -2, -1, Some(json), Some(NoMatch)) == Failure(IllegalStartLength(-2, -1, 10))
  {
  }

  /** The empty window at either end of a buffer is accepted, with or without a recognizer. */
  lemma BoundaryWindowsAccepted(json: Recognizer)
    ensures NewMatcher(None, Zeros(2), 0, 0, None, Some(WeakMatch)).Success?
    ensures NewMatcher(None, Zeros(2), 2, 0, Some(json), Some(SolidMatch)).Success?
    ensures NewMatcher(None, Zeros(2), 2, 0, Some(json), Some(SolidMatch)).value.Window() == []
  {
  }

  /** With a recognizer the format name is the recognizer's; without one there is no parser even at
      SOLID strength; with one a parser is made over the buffer, or over the merged stream when an
      original stream was kept. */
  method MatcherAccessors()
    returns (name: Option<string>, noRecognizerParser: bool, bytesParser: bool, streamParser: bool)
    ensures name == Some("JSON") && !noRecognizerParser && bytesParser && streamParser
  {
    var json := new Recognizer("JSON", JsonVerdict);
    var named := NewMatcher(None, Zeros(2), 2, 0, Some(json), Some(SolidMatch));
    name := named.value.MatchedFormatName();
    var unnamed := NewMatcher(None, Zeros(2), 2, 0, None, Some(SolidMatch));
    var p1 := CreateParserWithMatch(unnamed.value);
    noRecognizerParser := p1.Some?;
    var p2 := CreateParserWithMatch(named.value);
    bytesParser := p2.Some? && p2.value.input.FromBytes? && p2.value.format == json;
    var original := new ByteStream.Over(Zeros(3));
    var full := NewMatcher(Some(original), Zeros(3), 0, 0, Some(json), Some(SolidMatch));
    var p3 := CreateParserWithMatch(full.value);
    streamParser := p3.Some? && p3.value.input.FromStream? && p3.value.format == json;
  }

  /** Copy-on-change for each setting of a default detector: the current value gives back the same
      detector, any other value (here the lookahead raised by `delta`) a different one. */
  method CopyOnChange(delta: nat) returns (same: seq<bool>, changed: seq<bool>)
    requires delta > 0
    ensures same == [true, true, true] && changed == [true, true, true]
  {
    var json := new Recognizer("JSON", JsonVerdict);
    var d := new Detector([json]);
    var o1 := d.WithOptimalMatch(SolidMatch);
    var n1 := d.WithMinimalMatch(WeakMatch);
    var l1 := d.WithMaxInputLookahead(DEFAULT_MAX_INPUT_LOOKAHEAD);
    var o2 := d.WithOptimalMatch(FullMatch);
    var n2 := d.WithMinimalMatch(SolidMatch);
    var l2 := d.WithMaxInputLookahead(DEFAULT_MAX_INPUT_LOOKAHEAD + delta);
    same := [o1 == d, n1 == d, l1 == d];
    changed := [o2 != d, n2 != d, l2 != d];
  }

  /** The default detector's settings, its copy-on-change laws, and its rendering. */
  method DetectorConfiguration() returns (defaults: bool, same: seq<bool>, changed: seq<bool>, rendered: string)
    ensures defaults && same == [true, true, true] && changed == [true, true, true] && rendered == "[JSON]"
  {
    var json := new Recognizer("JSON", JsonVerdict);
    var d := new Detector([json]);
    defaults := d.optimal == SolidMatch && d.minimal == WeakMatch && d.maxLookahead == 64;
    same, changed := CopyOnChange(5);
    rendered := d.ToString();
  }

  /** An empty detector renders as "[]", one with three JSON recognizers as "[JSON, JSON, JSON]". */
  method Rendering() returns (empty: string, three: string)
    ensures empty == "[]" && three == "[JSON, JSON, JSON]"
  {
    var none := new Detector([]);
    assert NamesOf(none.recognizers) == [];
    empty := none.ToString();
    var j1 := new Recognizer("JSON", JsonVerdict);
    var j2 := new Recognizer("JSON", JsonVerdict);
    var j3 := new Recognizer("JSON", JsonVerdict);
    var d := new Detector([j1, j2, j3]);
    var names: seq<string> := ["JSON", "JSON", "JSON"];
    assert NamesOf(d.recognizers) == names;
    assert names[1..][1..] == ["JSON"];
    assert NameLists.Join(names) == "JSON, JSON, JSON";
    three := d.ToString();
  }

  /** Detection of a stream holding `input` by a default detector with one JSON stand-in. */
  method DetectJson(input: seq<byte>)
    returns (isJson: bool, name: Option<string>, strength: MatchStrength, seen: Option<seq<byte>>)
    ensures isJson <==> JsonVerdict(input).AtLeast(WeakMatch)
    ensures isJson ==> name == Some("JSON") && strength == JsonVerdict(input) && seen == Some(input)
    ensures !isJson ==> name == None && strength == Inconclusive && seen == None
  {
    var json := new Recognizer("JSON", JsonVerdict);
    var d := new Detector([json]);
    var winner;
    winner, name, strength, seen := DetectThenParseStream(d, input);
    isJson := winner == Some(json);
    OutcomeMeaning(d, d.Probe(input));
  }

  /** A JSON array and a JSON object are SOLID matches, and their parser sees every byte. */
  method SimpleValidArrayAndObject() returns (arrayOk: bool, objectOk: bool)
    ensures arrayOk && objectOk
  {
    var arrayText := Ascii("[ 1, 2 ]");
    var isJson, name, strength, seen := DetectJson(arrayText);
    arrayOk := isJson && name == Some("JSON") && strength == SolidMatch && seen == Some(arrayText);
    var objectText := Ascii("{  \"field\" : true }");
    isJson, name, strength, seen := DetectJson(objectText);
    objectOk := isJson && name == Some("JSON") && strength == SolidMatch && seen == Some(objectText);
  }

  /** A JSON string is only a WEAK match, which the default minimal threshold still accepts. */
  method SimpleValidString() returns (accepted: bool, strength: MatchStrength)
    ensures accepted && strength == WeakMatch
  {
    var text := Ascii("\"JSON!\"");
    var isJson, name, seen;
    isJson, name, strength, seen := DetectJson(text);
    accepted := isJson && name == Some("JSON") && seen == Some(text);
  }

  /** Markup is no JSON: no match, no name, INCONCLUSIVE, no parser. */
  method SimpleInvalid() returns (isJson: bool, name: Option<string>, strength: MatchStrength, seen: Option<seq<byte>>)
    ensures !isJson && name == None && strength == Inconclusive && seen == None
  {
    isJson, name, strength, seen := DetectJson(Ascii("<root />"));
  }
}
