/**
 Fixed-size byte buffers (include/log/FixedBuffer.h).
 */
module FixedBuffers {

  /** What `append` does to the contents of a buffer of `capacity` bytes: the bytes
      are added when they leave at least one byte free, and dropped otherwise. */
  function Appended(capacity: nat, contents: string, bytes: string): string {
    if |contents| + |bytes| < capacity then contents + bytes else contents
  }

  class FixedBuffer {
    const data: array<char>
    var cur: nat     // position of cur_ in data_
    var size: nat    // size_

    ghost predicate Valid()
      reads this
    {
      cur == size <= data.Length
    }

    ghost function Contents(): string
      requires Valid()
      reads this, data
    {
      data[..size]
    }

    constructor (capacity: nat)
      ensures Valid() && fresh(data) && data.Length == capacity && Contents() == ""
    {
      data := new char[capacity](_ => '\0');
      cur, size := 0, 0;
    }

    function Avail(): nat
      requires Valid()
      reads this
    {
      data.Length - size
    }

    /** Copies the bytes when there is more room than they need. */
    method Append(bytes: string)
      requires Valid()
      modifies this, data
      ensures Valid() && Contents() == Appended(data.Length, old(Contents()), bytes)
      ensures Contents() == if |old(Contents())| + |bytes| < data.Length then old(Contents()) + bytes else old(Contents())
    {
      if Avail() > |bytes| {
        var i := 0;
        while i < |bytes|
          invariant 0 <= i <= |bytes| && cur == old(cur) && size == old(size)
          invariant data[..size] == old(data[..size])
          invariant data[size..size + i] == bytes[..i]
        {
          data[cur + i] := bytes[i];
          i := i + 1;
        }
        assert data[size..size + |bytes|] == bytes;
        assert data[..size + |bytes|] == old(Contents()) + bytes;
        Add(|bytes|);
      }
    }

    /** Accounts for bytes already written behind the current position. */
    method Add(len: nat)
      requires Valid() && size + len <= data.Length
      modifies this
      ensures Valid() && size == old(size) + len
    {
      cur := cur + len;
      size := size + len;
    }

    method Reset()
      requires Valid()
      modifies this
      ensures Valid() && Contents() == ""
    {
      cur, size := 0, 0;
    }
  }
}
