/** The detector's `toString()`: the recognizers' format names in order, as `[A, B, C]`. */
module NameLists {
  import opened Wrappers

  /** The names joined with ", " between neighbours. */
  function Join(names: seq<string>): string
  {
    if |names| == 0 then ""
    else if |names| == 1 then names[0]
    else names[0] + ", " + Join(names[1..])
  }

  function Render(names: seq<string>): string
  {
    "[" + Join(names) + "]"
  }

  /** Position of the first comma in `s`, or `|s|` when there is none. */
  function CommaAt(s: string): (i: nat)
    ensures i <= |s|
    ensures i < |s| ==> s[i] == ','
    ensures forall j :: 0 <= j < i ==> s[j] != ','
  {
    if s == [] then 0
    else if s[0] == ',' then 0
    else 1 + CommaAt(s[1..])
  }

  /** Splits at each comma, dropping one space after it: the inverse of `Join`. */
  function Split(s: string): seq<string>
    decreases |s|
  {
    var i := CommaAt(s);
    if i == |s| then [s]
    else
      var rest := s[i + 1..];
      [s[..i]] + Split(if rest != [] && rest[0] == ' ' then rest[1..] else rest)
  }

  /** Reads a rendering back into its names; absent when the brackets are missing. */
  function Parse(s: string): Option<seq<string>>
  {
    if |s| >= 2 && s[0] == '[' && s[|s| - 1] == ']' then
      var inner := s[1..|s| - 1];
      if inner == "" then Some([]) else Some(Split(inner))
    else None
  }

  /** A name that can be read back out of a rendering. */
  predicate PlainName(n: string)
  {
    n != "" && ',' !in n
  }

  lemma FirstCommaAfter(a: string, b: string)
    requires ',' !in a && b != [] && b[0] == ','
    ensures CommaAt(a + b) == |a|
  {
    var i := CommaAt(a + b);
    assert (a + b)[|a|] == ',';
    assert forall j :: 0 <= j < |a| ==> (a + b)[j] == a[j];
  }

  /** One separator comes off the front. */
  lemma SplitOnce(head: string, tail: string)
    requires ',' !in head
    ensures Split(head + ", " + tail) == [head] + Split(tail)
  {
    var s := head + ", " + tail;
    FirstCommaAfter(head, ", " + tail);
    assert s == head + (", " + tail);
    assert s[..|head|] == head;
    assert s[|head| + 1..] == " " + tail;
  }

  lemma {:induction false} SplitJoin(names: seq<string>)
    requires |names| > 0 && forall k :: 0 <= k < |names| ==> PlainName(names[k])
    ensures Split(Join(names)) == names
  {
    if |names| == 1 {
      assert forall j :: 0 <= j < |names[0]| ==> names[0][j] != ',';
    } else {
      var tail := Join(names[1..]);
      SplitOnce(names[0], tail);
      SplitJoin(names[1..]);
      assert names == [names[0]] + names[1..];
    }
  }

  lemma {:induction false} JoinEmptyOnlyForNoNames(names: seq<string>)
    requires forall k :: 0 <= k < |names| ==> PlainName(names[k])
    ensures Join(names) == "" <==> names == []
  {
    if |names| > 1 {
      assert |Join(names)| >= |names[0]| + 2;
    }
  }

  /** `toString()` loses nothing: names without commas are read back exactly, in order. */
  lemma RenderRoundTrip(names: seq<string>)
    requires forall k :: 0 <= k < |names| ==> PlainName(names[k])
    ensures Parse(Render(names)) == Some(names)
  {
    var s := Render(names);
    assert s[1..|s| - 1] == Join(names);
    JoinEmptyOnlyForNoNames(names);
    if names != [] {
      SplitJoin(names);
    }
  }
}
