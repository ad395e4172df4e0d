/**
 * `ByteCountingOutputStream`: a filter stream that forwards every write to
 * the stream it wraps and counts the bytes of each write that returns
 * normally.
 */
module ByteCounting {
  import opened JavaLang

  /** How a stream call ends: normally, or with the exception it throws. */
  datatype IOResult = Ok | IOException | IndexOutOfBoundsException

  /**
   * Whether `off` and `len` select a range of a buffer of `length` bytes, as
   * `OutputStream.write(byte[], int, int)` requires before it writes anything.
   */
  predicate InBounds(length: nat, off: Int32, len: Int32) {
    0 <= off && 0 <= len && off + len <= length
  }

  /**
   * The wrapped stream, standing for any `OutputStream`: the bytes it has
   * accepted, whether it is closed and how many times `close` was called on
   * it. Whether a call succeeds or throws `IOException` is the stream's own
   * business and is left open here; a write that throws may have accepted a
   * prefix of its bytes, and a close that throws may have closed the stream.
   */
  class Sink {
    var data: seq<Byte>
    var closed: bool
    var closeCalls: nat

    constructor ()
      ensures data == [] && !closed && closeCalls == 0
    {
      data, closed, closeCalls := [], false, 0;
    }

    /** `write(byte[] b, int off, int len)`. */
    method Write(b: array<Byte>, off: Int32, len: Int32) returns (r: IOResult)
      modifies this
      ensures closed == old(closed) && closeCalls == old(closeCalls)
      ensures r == IndexOutOfBoundsException <==> !InBounds(b.Length, off, len)
      ensures r == IndexOutOfBoundsException ==> data == old(data)
      ensures r == Ok ==> InBounds(b.Length, off, len) && data == old(data) + b[off..off + len]
      ensures r == IOException ==> InBounds(b.Length, off, len) && old(data) <= data <= old(data) + b[off..off + len]
    {
      if !InBounds(b.Length, off, len) {
        return IndexOutOfBoundsException;
      }
      var accepted: nat :| accepted <= len;
      var ok: bool :| true;
      if ok {
        data, r := data + b[off..off + len], Ok;
      } else {
        data, r := data + b[off..off + accepted], IOException;
      }
    }

    /** `write(int b)`: writes the low eight bits of `b`. */
    method WriteByte(b: Int32) returns (r: IOResult)
      modifies this
      ensures closed == old(closed) && closeCalls == old(closeCalls)
      ensures r != IndexOutOfBoundsException
      ensures r == Ok ==> data == old(data) + [LowByte(b)]
      ensures r == IOException ==> data == old(data) || data == old(data) + [LowByte(b)]
    {
      var ok: bool :| true;
      var accepted: bool :| true;
      if ok {
        data, r := data + [LowByte(b)], Ok;
      } else {
        if accepted {
          data := data + [LowByte(b)];
        }
        r := IOException;
      }
    }

    /** `close()`. */
    method Close() returns (r: IOResult)
      modifies this
      ensures data == old(data) && closeCalls == old(closeCalls) + 1
      ensures r != IndexOutOfBoundsException
      ensures r == Ok ==> closed
    {
      closeCalls := closeCalls + 1;
      var ok: bool :| true;
      var marked: bool :| true;
      if ok {
        closed, r := true, Ok;
      } else {
        closed, r := closed || marked, IOException;
      }
    }
  }

  class ByteCountingOutputStream {
    /** The stream every call is forwarded to (`FilterOutputStream.out`). */
    const out: Sink
    /** The Java `long` field `count`. */
    var count: Int64
    /** The bytes forwarded by this stream's write overrides whose forwarded call returned normally. */
    ghost var forwarded: seq<Byte>

    /** `count` is the number of those bytes, as a Java `long`. */
    ghost predicate Valid()
      reads this
    {
      count == ToLong(|forwarded|)
    }

    constructor (out: Sink)
      ensures this.out == out && Valid()
      ensures count == 0 && forwarded == []
    {
      this.out := out;
      count := 0;
      forwarded := [];
    }

    /** `getByteCount()`: reads the count and changes nothing. */
    method GetByteCount() returns (c: Int64)
      requires Valid()
      ensures c == count
      ensures |forwarded| < 0x8000_0000_0000_0000 ==> c == |forwarded|
    {
      c := count;
    }

    /** `write(byte[] b, int off, int len)`: forwards, then adds `len` to the count. */
    method Write(b: array<Byte>, off: Int32, len: Int32) returns (r: IOResult)
      requires Valid()
      modifies this, out
      ensures Valid()
      ensures out.closed == old(out.closed) && out.closeCalls == old(out.closeCalls)
      ensures r == IndexOutOfBoundsException <==> !InBounds(b.Length, off, len)
      ensures r == Ok ==> InBounds(b.Length, off, len)
                          && out.data == old(out.data) + b[off..off + len]
                          && forwarded == old(forwarded) + b[off..off + len]
                          && count == ToLong(old(count) + len)
      ensures r == Ok && len == 0 ==> count == old(count) && out.data == old(out.data)
      ensures r != Ok ==> count == old(count) && forwarded == old(forwarded)
      ensures r == IndexOutOfBoundsException ==> out.data == old(out.data)
      ensures r == IOException ==> old(out.data) <= out.data <= old(out.data) + b[off..off + len]
    {
      r := out.Write(b, off, len);
      if r != Ok {
        return;
      }
      ToLongAdd(|forwarded|, len);
      count := ToLong(count + len);
      forwarded := forwarded + b[off..off + len];
    }

    /** `write(int b)`: forwards, then adds one to the count. */
    method WriteByte(b: Int32) returns (r: IOResult)
      requires Valid()
      modifies this, out
      ensures Valid()
      ensures out.closed == old(out.closed) && out.closeCalls == old(out.closeCalls)
      ensures r != IndexOutOfBoundsException
      ensures r == Ok ==> out.data == old(out.data) + [LowByte(b)]
                          && forwarded == old(forwarded) + [LowByte(b)]
                          && count == ToLong(old(count) + 1)
      ensures r == IOException ==> count == old(count) && forwarded == old(forwarded)
      ensures r == IOException ==> out.data == old(out.data) || out.data == old(out.data) + [LowByte(b)]
    {
      r := out.WriteByte(b);
      if r != Ok {
        return;
      }
      ToLongAdd(|forwarded|, 1);
      count := ToLong(count + 1);
      forwarded := forwarded + [LowByte(b)];
    }

    /** `close()`: closes the wrapped stream and leaves the count alone. */
    method Close() returns (r: IOResult)
      requires Valid()
      modifies out
      ensures Valid() && count == old(count) && forwarded == old(forwarded)
      ensures out.data == old(out.data) && out.closeCalls == old(out.closeCalls) + 1
      ensures r != IndexOutOfBoundsException
      ensures r == Ok ==> out.closed
    {
      r := out.Close();
    }
  }

  /**
   * A caller's view: "hello" and then the byte 0x41 written through a fresh
   * counting stream give a count of 6, which closing leaves unchanged.
   */
  method HelloScenario() {
    var sink := new Sink();
    var stream := new ByteCountingOutputStream(sink);
    var hello := new Byte[5];
    hello[0], hello[1], hello[2], hello[3], hello[4] := 0x68, 0x65, 0x6C, 0x6C, 0x6F;
    var r := stream.Write(hello, 0, 5);
    if r == Ok {
      assert hello[0..5] == hello[..];
      assert stream.forwarded == sink.data == hello[..];
      r := stream.WriteByte(0x41);
      if r == Ok {
        assert stream.forwarded == sink.data == hello[..] + [0x41];
        var n := stream.GetByteCount();
        assert n == 6;
        r := stream.Close();
        n := stream.GetByteCount();
        assert n == 6;
      }
    }
  }
}
