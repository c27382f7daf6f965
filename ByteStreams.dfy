/** A byte source over an in-memory sequence: java.io.ByteArrayInputStream as the detector uses it,
    both as the caller's original stream and as the bounded view handed back for buffered bytes. */
module ByteStreams {
  import opened Wrappers

  /** An octet, as `InputStream.read()` reports it (0..255). */
  newtype byte = b: int | 0 <= b < 256

  /** What `read()` returns for a source that still holds `s`: its first byte, or -1 at end. */
  function NextByte(s: seq<byte>): (c: int)
    ensures c < 0 <==> s == []
    ensures c >= 0 ==> c == s[0] as int
  {
    if s == [] then -1 else s[0] as int
  }

  /** What such a source still holds after that `read()`. */
  function AfterRead(s: seq<byte>): (r: seq<byte>)
    ensures s != [] ==> [s[0]] + r == s
    ensures s == [] ==> r == []
  {
    if s == [] then [] else s[1..]
  }

  /** The outcome of `read(buf, off, len)` on a source that held `before` and now holds `after`,
      with the caller's buffer going from `oldBuf` to `newBuf`: -1 and nothing touched at end of
      input; otherwise `n` bytes (at least one when `len > 0`, at most `len`) taken from the front
      of the source and written at `off`, the rest of the buffer left alone. */
  predicate BulkRead(before: seq<byte>, after: seq<byte>, oldBuf: seq<byte>, newBuf: seq<byte>,
                     off: nat, len: nat, n: int)
  {
    && off + len <= |oldBuf| == |newBuf|
    && if before == [] then
         n == -1 && after == [] && newBuf == oldBuf
       else
         && 0 <= n <= len && n <= |before| && (len > 0 ==> n > 0)
         && newBuf == oldBuf[..off] + before[..n] + oldBuf[off + n..]
         && after == before[n..]
  }

  class ByteStream {
    /** The backing bytes, the exclusive read limit and the read cursor. */
    const data: seq<byte>
    const count: nat
    var pos: nat

    predicate Valid()
      reads this
    {
      pos <= count <= |data|
    }

    /** The bytes this stream will still deliver, in order. */
    function Remaining(): (r: seq<byte>)
      reads this
      requires Valid()
      ensures |r| == count - pos
    {
      data[pos..count]
    }

    /** A stream over all of `bytes`. */
    constructor Over(bytes: seq<byte>)
      ensures Valid() && data == bytes && Remaining() == bytes
    {
      data, count, pos := bytes, |bytes|, 0;
    }

    /** A stream over `bytes[offset..offset + length]` only. */
    constructor View(bytes: seq<byte>, offset: nat, length: nat)
      requires offset + length <= |bytes|
      ensures Valid() && data == bytes && Remaining() == bytes[offset..offset + length]
    {
      data, count, pos := bytes, offset + length, offset;
    }

    /** `available()`: every remaining byte is available without blocking. */
    function Available(): (n: nat)
      reads this
      requires Valid()
      ensures n == |Remaining()|
    {
      count - pos
    }

    /** `read()`: the next byte, or -1 at end of input. */
    method Read() returns (c: int)
      requires Valid()
      modifies this
      ensures Valid()
      ensures c == NextByte(old(Remaining())) && Remaining() == AfterRead(old(Remaining()))
    {
      if pos >= count {
        c := -1;
      } else {
        c := data[pos] as int;
        pos := pos + 1;
      }
    }

    /** `read(b, off, len)`: -1 at end of input, otherwise copies min(len, remaining) bytes to
        `b[off..]` and returns how many. */
    method ReadInto(b: array<byte>, off: nat, len: nat) returns (n: int)
      requires Valid() && off + len <= b.Length
      modifies this, b
      ensures Valid()
      ensures BulkRead(old(Remaining()), Remaining(), old(b[..]), b[..], off, len, n)
      ensures old(Remaining()) != [] ==> n == Min(len, |old(Remaining())|)
    {
      if pos >= count {
        return -1;
      }
      var k := Min(len, count - pos);
      forall i | off <= i < off + k {
        b[i] := data[pos + (i - off)];
      }
      assert b[..] == old(b[..])[..off] + data[pos..pos + k] + old(b[..])[off + k..];
      pos := pos + k;
      n := k;
    }
  }
}
