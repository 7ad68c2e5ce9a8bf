/**
 The console's ring buffer: a queue of at most size - 1 characters.
 */
module CircularBuffer {

  /** The remainder, for positions less than twice the size. */
  function Wrap(a: nat, size: nat): nat { if a < size then a else a - size }

  lemma WrapIs(a: nat, size: nat)
    requires 0 < size && a < 2 * size
    ensures a % size == Wrap(a, size)
  {
    var q := a / size;
    assert a == q * size + a % size;
    assert q * size < 2 * size;
    assert q < 2;
  }

  /** The characters from position `r` up to position `w`, around the end of the buffer if need be. */
  function Between(b: seq<char>, r: nat, w: nat): seq<char>
    requires r < |b| && w < |b|
  {
    if r <= w then b[r..w] else b[r..] + b[..w]
  }

  lemma BetweenLength(b: seq<char>, r: nat, w: nat)
    requires r < |b| && w < |b|
    ensures |Between(b, r, w)| == if r <= w then w - r else |b| - r + w
  {
  }

  /** A character stored at the write position extends what lies before it. */
  lemma Appended(b: seq<char>, r: nat, w: nat, c: char)
    requires r < |b| && w < |b| && Wrap(w + 1, |b|) != r
    ensures Between(b[w := c], r, Wrap(w + 1, |b|)) == Between(b, r, w) + [c]
  {
  }

  class Ring {
    const buffer: array<char>
    var readPosition: nat
    var writePosition: nat
    var overflow: bool

    ghost predicate Valid()
      reads this
    {
      && buffer.Length >= 2 && readPosition < buffer.Length && writePosition < buffer.Length
      && (overflow <==> Wrap(writePosition + 1, buffer.Length) == readPosition)
    }

    /** The characters written and not yet read, oldest first. */
    ghost function Contents(): (c: seq<char>)
      requires Valid()
      reads this, buffer
      ensures |c| < buffer.Length && (overflow <==> |c| == buffer.Length - 1)
    {
      Between(buffer[..], readPosition, writePosition)
    }

    constructor (buffer: array<char>)
      requires buffer.Length >= 2
      ensures Valid() && this.buffer == buffer && Contents() == []
    {
      this.buffer := buffer;
      readPosition, writePosition, overflow := 0, 0, false;
    }

    /** circular_buffer_write: appends, or drops the character when the buffer is full. */
    method Write(c: char) returns (written: nat)
      requires Valid()
      modifies this, buffer
      ensures Valid()
      ensures written == if |old(Contents())| < buffer.Length - 1 then 1 else 0
      ensures Contents() == if written == 1 then old(Contents()) + [c] else old(Contents())
    {
      if overflow {
        return 0;
      }
      hide Between;
      ghost var was := buffer[..];
      Appended(was, readPosition, writePosition, c);
      BetweenLength(was, readPosition, writePosition);
      WrapIs(writePosition + 1, buffer.Length);
      WrapIs(Wrap(writePosition + 1, buffer.Length) + 1, buffer.Length);
      buffer[writePosition] := c;
      assert buffer[..] == was[writePosition := c];
      writePosition := (writePosition + 1) % buffer.Length;
      if (writePosition + 1) % buffer.Length == readPosition {
        overflow := true;
      }
      return 1;
    }

    /** The two memcpy calls of circular_buffer_read: all that is available. */
    method Copy(dest: array<char>)
      requires Valid() && dest != buffer && Contents() != [] && dest.Length >= |Contents()|
      modifies dest
      ensures dest[..|Contents()|] == Contents()
    {
      var size := buffer.Length;
      if readPosition < writePosition {
        forall i | 0 <= i < writePosition - readPosition { dest[i] := buffer[readPosition + i]; }
      } else {
        forall i | 0 <= i < size - readPosition { dest[i] := buffer[readPosition + i]; }
        forall i | 0 <= i < writePosition { dest[size - readPosition + i] := buffer[i]; }
      }
    }

    method Advance(n: nat)
      requires Valid() && 0 < n <= |Contents()|
      modifies this
      ensures Valid() && Contents() == old(Contents())[n..]
    {
      overflow := false;
      WrapIs(readPosition + n, buffer.Length);
      readPosition := (readPosition + n) % buffer.Length;
    }

    /** circular_buffer_read: everything is copied, but only the first characters asked for are taken out. */
    method Read(toRead: nat, dest: array<char>) returns (readable: nat)
      requires Valid() && dest != buffer && (toRead > 0 ==> dest.Length >= |Contents()|)
      modifies this, dest
      ensures Valid()
      ensures readable == if toRead < |old(Contents())| then toRead else |old(Contents())|
      ensures dest[..readable] == old(Contents())[..readable] && Contents() == old(Contents())[readable..]
    {
      var size := buffer.Length;
      ghost var c := Contents();
      var maxRead := if toRead < size - 1 then toRead else size - 1;
      WrapIs(size + writePosition - readPosition, size);
      var available := (size + writePosition - readPosition) % size;
      readable := if available < maxRead then available else maxRead;
      if readable > 0 {
        Copy(dest);
        assert dest[..readable] == dest[..|c|][..readable];
        Advance(readable);
      }
    }
  }
}
