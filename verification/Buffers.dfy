/**
 The growable byte buffer of a connection (include/net/Buffer.h, src/net/Buffer.cc):
 an array with a read and a write position that refines a FIFO byte sequence.
 */
module Buffers {

  const CHEAP_PREPEND: nat := 8
  const INITIAL_SIZE: nat := 1024
  const EXTRA_SIZE: nat := 65536

  /** What `readv` may answer. */
  datatype ReadResult = Failed(errno: int) | Got(bytes: string)

  class Buffer {
    var buffer: array<char>
    var readerIndex: nat
    var writerIndex: nat

    ghost predicate Valid()
      reads this
    {
      CHEAP_PREPEND <= readerIndex <= writerIndex <= buffer.Length
    }

    /** The readable bytes. */
    ghost function Contents(): string
      requires Valid()
      reads this, buffer
    {
      buffer[readerIndex..writerIndex]
    }

    constructor (initialSize: nat := INITIAL_SIZE)
      ensures Valid() && fresh(buffer) && Contents() == ""
    {
      buffer := new char[CHEAP_PREPEND + initialSize](_ => '\0');
      readerIndex, writerIndex := CHEAP_PREPEND, CHEAP_PREPEND;
    }

    function ReadableBytes(): (n: nat)
      requires Valid()
      reads this, buffer
      ensures n == |Contents()|
    {
      writerIndex - readerIndex
    }

    function WritableBytes(): nat
      requires Valid()
      reads this
    {
      buffer.Length - writerIndex
    }

    function PrependableBytes(): nat
      reads this
    {
      readerIndex
    }

    /** Drops the oldest bytes, all of them when fewer than len are readable. */
    method Retrieve(len: nat)
      requires Valid()
      modifies this`readerIndex, this`writerIndex
      ensures Valid()
      ensures Contents() == if len < |old(Contents())| then old(Contents())[len..] else ""
    {
      if len < ReadableBytes() {
        readerIndex := readerIndex + len;
      } else {
        RetrieveAll();
      }
    }

    method RetrieveAll()
      requires Valid()
      modifies this`readerIndex, this`writerIndex
      ensures Valid() && Contents() == "" && WritableBytes() == buffer.Length - CHEAP_PREPEND
    {
      readerIndex, writerIndex := CHEAP_PREPEND, CHEAP_PREPEND;
    }

    /** Takes the len oldest bytes out. */
    method RetrieveAsString(len: nat) returns (result: string)
      requires Valid() && len <= |Contents()|
      modifies this`readerIndex, this`writerIndex
      ensures Valid() && result + Contents() == old(Contents()) && |result| == len
    {
      result := buffer[readerIndex..readerIndex + len];
      Retrieve(len);
    }

    /** Makes room for len bytes, by moving the contents down when that is enough
        and by growing otherwise. */
    method EnsureWritableBytes(len: nat)
      requires Valid()
      modifies this, buffer
      ensures Valid() && Contents() == old(Contents()) && WritableBytes() >= len
      ensures buffer == old(buffer) || fresh(buffer)
    {
      if WritableBytes() < len {
        if WritableBytes() + PrependableBytes() < len + CHEAP_PREPEND {
          Resize(writerIndex + len);
        } else {
          Compact();
        }
      }
    }

    /** `buffer_.resize(n)` to a larger size. */
    method Resize(n: nat)
      requires Valid() && n >= buffer.Length
      modifies this`buffer
      ensures Valid() && fresh(buffer) && buffer.Length == n
      ensures readerIndex == old(readerIndex) && writerIndex == old(writerIndex) && Contents() == old(Contents())
    {
      var bigger := new char[n](_ => '\0');
      forall i | 0 <= i < buffer.Length {
        bigger[i] := buffer[i];
      }
      buffer := bigger;
    }

    /** Copies the readable bytes down to the prepend mark, lowest address first.
        The target lies below the source, so no byte is read after it was overwritten. */
    method Compact()
      requires Valid() && readerIndex > CHEAP_PREPEND
      modifies this`readerIndex, this`writerIndex, buffer
      ensures Valid() && readerIndex == CHEAP_PREPEND && Contents() == old(Contents())
      ensures WritableBytes() == old(WritableBytes()) + old(readerIndex) - CHEAP_PREPEND
    {
      var from, readable := readerIndex, ReadableBytes();
      ghost var was := buffer[..];
      var i := 0;
      while i < readable
        invariant 0 <= i <= readable && readerIndex == from && writerIndex == from + readable
        invariant buffer[CHEAP_PREPEND..CHEAP_PREPEND + i] == was[from..from + i]
        invariant buffer[from + i..from + readable] == was[from + i..from + readable]
      {
        assert buffer[from + i] == buffer[from + i..from + readable][0] == was[from + i];
        ghost var rest := buffer[from + i..from + readable];
        buffer[CHEAP_PREPEND + i] := buffer[from + i];
        assert buffer[from + i + 1..from + readable] == rest[1..];
        i := i + 1;
      }
      readerIndex, writerIndex := CHEAP_PREPEND, CHEAP_PREPEND + readable;
    }

    method Append(data: string)
      requires Valid()
      modifies this, buffer
      ensures Valid() && Contents() == old(Contents()) + data
      ensures buffer == old(buffer) || fresh(buffer)
    {
      EnsureWritableBytes(|data|);
      WriteBehind(data);
      writerIndex := writerIndex + |data|;
    }

    /** Stores bytes in the free space behind the write position, without moving it. */
    method WriteBehind(data: string)
      requires Valid() && |data| <= WritableBytes()
      modifies buffer
      ensures Contents() == old(Contents()) && buffer[writerIndex..writerIndex + |data|] == data
      ensures buffer[readerIndex..writerIndex + |data|] == old(Contents()) + data
    {
      forall i | 0 <= i < |data| {
        buffer[writerIndex + i] := data[i];
      }
      assert buffer[readerIndex..writerIndex + |data|] == buffer[readerIndex..writerIndex] + buffer[writerIndex..writerIndex + |data|];
    }

    /** A scatter read, which fails or delivers some bytes: first into the free space,
        then into a stack buffer from which the rest is appended. */
    method ReadFd(result: ReadResult) returns (n: int, saveErrno: int)
      requires Valid()
      requires result.Got? ==>
                 |result.bytes| <= WritableBytes() + (if WritableBytes() < EXTRA_SIZE then EXTRA_SIZE else 0)
      modifies this, buffer
      ensures Valid() && (buffer == old(buffer) || fresh(buffer))
      ensures Contents() == old(Contents()) + (if result.Got? then result.bytes else "")
      ensures if result.Got? then n == |result.bytes| else n < 0 && saveErrno == result.errno
    {
      if result.Failed? {
        return -1, result.errno;
      }
      n, saveErrno := |result.bytes|, 0;
      AcceptInput(result.bytes);
    }

    /** The bytes of a read that succeeded. */
    method AcceptInput(input: string)
      requires Valid()
      requires |input| <= WritableBytes() + EXTRA_SIZE
      modifies this, buffer
      ensures Valid() && Contents() == old(Contents()) + input
      ensures buffer == old(buffer) || fresh(buffer)
    {
      var writable := WritableBytes();
      if |input| <= writable {
        WriteBehind(input);
        writerIndex := writerIndex + |input|;
      } else {
        WriteBehind(input[..writable]);
        writerIndex := buffer.Length;
        Append(input[writable..]);
        assert input[..writable] + input[writable..] == input;
      }
    }
  }
}
