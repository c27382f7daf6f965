/** The immutable result of one detection run (Java: `DataFormatMatcher`). */
module Matchers {
  import opened Wrappers
  import opened ByteStreams
  import opened MergedStreams
  import opened Formats

  /** Raised when the buffered window does not fit the buffer ("Illegal start/length"). */
  datatype MatcherError = IllegalStartLength(start: int, length: int, size: nat)

  /** The retained original stream (if any), the buffer with the window of valid bytes
      `buffer[start..start + length]`, the winning recognizer (if any) and the strength. */
  datatype Matcher = Matcher(
    original: Option<ByteStream>,
    buffer: seq<byte>,
    start: nat,
    length: nat,
    recognizer: Option<Recognizer>,
    strength: MatchStrength)
  {
    predicate Valid()
    {
      start + length <= |buffer|
    }

    /** The bytes that were buffered while probing. */
    function Window(): seq<byte>
      requires Valid()
    {
      buffer[start..start + length]
    }

    /** `hasMatch()` */
    predicate HasMatch()
      ensures HasMatch() <==> MatchedFormatName().Some?
    {
      recognizer.Some?
    }

    /** `getMatchedFormatName()`: absent (Java: null) when nothing matched. */
    function MatchedFormatName(): (name: Option<string>)
      ensures name.Some? <==> recognizer.Some?
      ensures name.Some? ==> name.value == recognizer.value.name
    {
      if recognizer.Some? then Some(recognizer.value.name) else None
    }

    function OriginalRepr(): set<object>
    {
      if original.Some? then {original.value} else {}
    }

    predicate OriginalValid()
      reads OriginalRepr()
    {
      original.Some? ==> original.value.Valid()
    }

    /** What the retained stream still holds (nothing when there is none). */
    function Continuation(): seq<byte>
      reads OriginalRepr()
      requires OriginalValid()
    {
      if original.Some? then original.value.Remaining() else []
    }

    /** The whole input as a consumer of this match must see it: the window, then the rest. */
    function FullInput(): seq<byte>
      reads OriginalRepr()
      requires Valid() && OriginalValid()
    {
      Window() + Continuation()
    }
  }

  /** `getMatchStrength()` of a result built with a null strength is INCONCLUSIVE. */
  function StrengthOrInconclusive(strength: Option<MatchStrength>): (r: MatchStrength)
    ensures strength.Some? ==> r == strength.value
    ensures r == Inconclusive <==> strength.None? || strength == Some(Inconclusive)
  {
    if strength.Some? then strength.value else Inconclusive
  }

  /** The `DataFormatMatcher` constructor: every window that does not fit the buffer is refused,
      so no matcher with a bad window exists. */
  function NewMatcher(original: Option<ByteStream>, buffer: seq<byte>, start: int, length: int,
                      recognizer: Option<Recognizer>, strength: Option<MatchStrength>)
    : (r: Result<Matcher, MatcherError>)
    ensures r.Success? <==> 0 <= start && 0 <= length && start + length <= |buffer|
    ensures r.Failure? ==> r.error == IllegalStartLength(start, length, |buffer|)
    ensures r.Success? ==>
      && r.value.Valid()
      && r.value.Window() == buffer[start..start + length]
      && r.value.original == original && r.value.recognizer == recognizer
      && r.value.strength == StrengthOrInconclusive(strength)
  {
    if start < 0 || length < 0 || start + length > |buffer| then
      Failure(IllegalStartLength(start, length, |buffer|))
    else
      Success(Matcher(original, buffer, start, length, recognizer, StrengthOrInconclusive(strength)))
  }

  /** `getDataStream()`: a bounded view of the window when there is no original stream, otherwise
      a merged stream over the window and the original stream; either way exactly the full input. */
  method GetDataStream(m: Matcher) returns (ds: DataStream)
    requires m.Valid() && m.OriginalValid()
    ensures ds.Valid() && ds.Content() == m.FullInput()
    ensures ds.Available() == m.length
    ensures ds.Plain? <==> m.original.None?
    ensures ds.Plain? ==> fresh(ds.view)
    ensures ds.Merged? ==> fresh(ds.merged) && ds.merged.tail == m.original.value
  {
    if m.original.None? {
      var view := new ByteStream.View(m.buffer, m.start, m.length);
      ds := Plain(view);
    } else {
      var merged := new MergedStream(m.original.value, m.buffer, m.start, m.start + m.length);
      ds := Merged(merged);
    }
  }

  /** What a format parser reads: the buffered bytes directly, or a stream. */
  datatype ParserInput = FromBytes(bytes: seq<byte>, offset: nat, count: nat) | FromStream(stream: DataStream)
  {
    function Repr(): set<object>
    {
      if FromBytes? then {} else stream.Repr()
    }

    predicate Valid()
      reads Repr()
    {
      if FromBytes? then offset + count <= |bytes| else stream.Valid()
    }

    function Content(): seq<byte>
      reads Repr()
      requires Valid()
    {
      if FromBytes? then bytes[offset..offset + count] else stream.Content()
    }
  }

  /** A parser built by the winning recognizer over its input (its tokenizing is not modelled). */
  datatype Parser = Parser(format: Recognizer, input: ParserInput)

  /** `createParserWithMatch()`: nothing without a winning recognizer, whatever the strength;
      otherwise the recognizer's parser over the buffered bytes, or over the merged stream when an
      original stream was kept, so that the parser sees the full input. */
  method CreateParserWithMatch(m: Matcher) returns (p: Option<Parser>)
    requires m.Valid() && m.OriginalValid()
    ensures p.Some? <==> m.HasMatch()
    ensures p.Some? ==>
      && p.value.format == m.recognizer.value
      && p.value.input.Valid() && p.value.input.Content() == m.FullInput()
    ensures p.Some? && m.original.None? ==> p.value.input == FromBytes(m.buffer, m.start, m.length)
    ensures p.Some? && m.original.Some? ==>
      && p.value.input.FromStream? && p.value.input.stream.Merged?
      && fresh(p.value.input.stream.merged) && p.value.input.stream.merged.tail == m.original.value
  {
    if m.recognizer.None? {
      return None;
    }
    if m.original.None? {
      p := Some(Parser(m.recognizer.value, FromBytes(m.buffer, m.start, m.length)));
    } else {
      var ds := GetDataStream(m);
      p := Some(Parser(m.recognizer.value, FromStream(ds)));
    }
  }
}
