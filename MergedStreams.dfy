/** The read-once composite source returned for a match that kept its original stream: it yields
    the buffered window first and then continues with whatever the original stream still holds. */
module MergedStreams {
  import opened Wrappers
  import opened ByteStreams

  class MergedStream {
    /** The original stream, read once the buffered bytes are used up. */
    const tail: ByteStream
    /** The buffered bytes `prefix[ptr..end]` still to deliver. */
    const prefix: seq<byte>
    const end: nat
    var ptr: nat
    /** Whether the buffer is still attached (Java: `_b != null`); it is dropped once drained. */
    var buffered: bool

    predicate Valid()
      reads this, tail
    {
      ptr <= end <= |prefix| && tail.Valid()
    }

    /** The part of the buffer not yet delivered. */
    function Pending(): (r: seq<byte>)
      reads this
      requires ptr <= end <= |prefix|
      ensures buffered ==> |r| == end - ptr
      ensures !buffered ==> r == []
    {
      if buffered then prefix[ptr..end] else []
    }

    /** Everything this stream will still deliver. */
    function Content(): seq<byte>
      reads this, tail
      requires Valid()
    {
      Pending() + tail.Remaining()
    }

    constructor (tail: ByteStream, buf: seq<byte>, start: nat, end: nat)
      requires tail.Valid() && start <= end <= |buf|
      ensures Valid() && this.tail == tail && buffered
      ensures Pending() == buf[start..end] && tail.Remaining() == old(tail.Remaining())
      ensures Content() == buf[start..end] + tail.Remaining()
    {
      this.tail, prefix, this.end, ptr, buffered := tail, buf, end, start, true;
    }

    /** `available()`: while the buffer is attached only the buffered bytes are reported, even when
        the tail has more; afterwards the tail's own count. */
    function Available(): (n: nat)
      reads this, tail
      requires Valid()
      ensures n <= |Content()|
      ensures buffered ==> n == |Content()| - |tail.Remaining()|
      ensures !buffered ==> n == |Content()|
    {
      if buffered then end - ptr else tail.Available()
    }

    /** `read()`: the next byte of the buffered window, then of the tail; -1 when both are empty. */
    method Read() returns (c: int)
      requires Valid()
      modifies this, tail
      ensures Valid()
      ensures c == NextByte(old(Content())) && Content() == AfterRead(old(Content()))
      ensures old(Pending()) != [] ==> Pending() == old(Pending())[1..] && tail.Remaining() == old(tail.Remaining())
      ensures old(Pending()) == [] ==> !buffered && tail.Remaining() == AfterRead(old(tail.Remaining()))
      ensures buffered ==> Pending() != []
    {
      if buffered && ptr < end {
        c := prefix[ptr] as int;
        ptr := ptr + 1;
        if ptr >= end {
          buffered := false;
        }
      } else {
        buffered := false;
        c := tail.Read();
      }
    }

    /** `read(b, off, len)`: copies from the buffered window while it lasts (never mixing it with the
        tail in one call), then from the tail; -1 at end of input. */
    method ReadInto(b: array<byte>, off: nat, len: nat) returns (n: int)
      requires Valid() && off + len <= b.Length
      modifies this, tail, b
      ensures Valid()
      ensures BulkRead(old(Content()), Content(), old(b[..]), b[..], off, len, n)
      ensures old(Pending()) != [] ==>
        && 0 <= n <= |old(Pending())| && Pending() == old(Pending())[n..]
        && tail.Remaining() == old(tail.Remaining())
      ensures old(Pending()) == [] ==> !buffered
      ensures buffered ==> Pending() != []
    {
      if buffered && ptr < end {
        n := ReadBuffered(b, off, len);
      } else {
        buffered := false;
        n := tail.ReadInto(b, off, len);
      }
    }

    /** The buffered half of `read(b, off, len)`: copies what fits from the pending window. */
    method ReadBuffered(b: array<byte>, off: nat, len: nat) returns (n: nat)
      requires Valid() && off + len <= b.Length && buffered && ptr < end
      modifies this, b
      ensures Valid() && n == Min(len, end - old(ptr))
      ensures Pending() == old(Pending())[n..] && (buffered ==> Pending() != [])
      ensures BulkRead(old(Content()), Content(), old(b[..]), b[..], off, len, n)
    {
      var k := Min(len, end - ptr);
      forall i | off <= i < off + k {
        b[i] := prefix[ptr + (i - off)];
      }
      assert b[..] == old(b[..])[..off] + prefix[ptr..ptr + k] + old(b[..])[off + k..];
      BufferedBulkRead(prefix, ptr, end, k, tail.Remaining(), old(b[..]), b[..], off, len);
      ptr := ptr + k;
      if ptr >= end {
        buffered := false;
      }
      n := k;
    }

    /** Reads byte by byte until end of input: what a consumer of this stream receives in total. */
    method ReadAll() returns (out: seq<byte>)
      requires Valid()
      modifies this, tail
      ensures Valid() && Content() == []
      ensures out == old(Content())
    {
      ghost var all := Content();
      ghost var rest := all;
      out := [];
      while true
        invariant Valid() && Content() == rest
        invariant out + rest == all
        decreases |rest|
      {
        var c := Read();
        if c < 0 {
          break;
        }
        assert c == rest[0] as int && Content() == rest[1..];
        MoveFirst(out, rest);
        out := out + [c as byte];
        rest := rest[1..];
      }
    }
  }

  /** Taking `k` bytes from a non-empty pending window is a bulk read of the merged content. */
  lemma BufferedBulkRead(prefix: seq<byte>, ptr: nat, end: nat, k: nat, rest: seq<byte>,
                         oldBuf: seq<byte>, newBuf: seq<byte>, off: nat, len: nat)
    requires ptr < end <= |prefix| && k == Min(len, end - ptr) && off + len <= |oldBuf|
    requires newBuf == oldBuf[..off] + prefix[ptr..ptr + k] + oldBuf[off + k..]
    ensures BulkRead(prefix[ptr..end] + rest, prefix[ptr + k..end] + rest, oldBuf, newBuf, off, len, k)
  {
    var before := prefix[ptr..end] + rest;
    assert before[..k] == prefix[ptr..ptr + k];
    assert before[k..] == prefix[ptr + k..end] + rest;
  }

  /** Moving the first byte still to come onto the end of what was delivered keeps the total. */
  lemma MoveFirst(done: seq<byte>, rest: seq<byte>)
    requires rest != []
    ensures (done + [rest[0]]) + rest[1..] == done + rest
  {
    assert rest == [rest[0]] + rest[1..];
  }

  /** The two kinds of source a match hands back: a bounded view over the buffer when there was no
      original stream, a merged stream when there was one. */
  datatype DataStream = Plain(view: ByteStream) | Merged(merged: MergedStream)
  {
    function Repr(): set<object>
    {
      if Plain? then {view} else {merged, merged.tail}
    }

    predicate Valid()
      reads Repr()
    {
      if Plain? then view.Valid() else merged.Valid()
    }

    function Content(): seq<byte>
      reads Repr()
      requires Valid()
    {
      if Plain? then view.Remaining() else merged.Content()
    }

    function Available(): nat
      reads Repr()
      requires Valid()
    {
      if Plain? then view.Available() else merged.Available()
    }
  }
}
