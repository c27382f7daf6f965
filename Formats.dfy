/** The confidence scale and the recognizer capability the detector consumes. */
module Formats {
  import opened ByteStreams

  /** How strongly a recognizer believes a byte prefix belongs to its format, weakest first. */
  datatype MatchStrength = NoMatch | Inconclusive | WeakMatch | SolidMatch | FullMatch
  {
    /** Position on the scale (Java: `ordinal()`). */
    function Ordinal(): (n: nat)
      ensures n < 5
    {
      match this
      case NoMatch => 0
      case Inconclusive => 1
      case WeakMatch => 2
      case SolidMatch => 3
      case FullMatch => 4
    }

    predicate AtLeast(other: MatchStrength)
    {
      Ordinal() >= other.Ordinal()
    }
  }

  /** A format factory (Java: a `JsonFactory` or another format's factory), kept abstract: a stable
      format name and a pure judgement of a byte prefix. Identity matters: the match result hands
      back the very recognizer that won. */
  class Recognizer {
    const name: string
    const judge: seq<byte> -> MatchStrength

    constructor (name: string, judge: seq<byte> -> MatchStrength)
      ensures this.name == name && this.judge == judge
    {
      this.name, this.judge := name, judge;
    }
  }
}
