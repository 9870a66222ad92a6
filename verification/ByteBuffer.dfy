/** The input and output buffer of a connection: a growing array with a read and a write index. */
module ByteBuffer {
  import opened Text

  const CHEAP_PREPEND: nat := 8
  const INITIAL_SIZE: nat := 1024
  const EXTRA_SIZE: nat := 65536

  /** What one `readv` came to. */
  datatype ReadResult = ReadFailed | Received(bytes: string)

  class Buffer {
    var storage: array<char>
    var readerIndex: nat
    var writerIndex: nat

    ghost predicate Valid()
      reads this
    {
      CHEAP_PREPEND <= readerIndex <= writerIndex <= storage.Length
    }

    /** The bytes received and not yet consumed. */
    ghost function Readable(): string
      requires Valid()
      reads this, storage
    {
      storage[readerIndex..writerIndex]
    }

    constructor (initialSize: nat := INITIAL_SIZE)
      ensures Valid() && Readable() == "" && fresh(storage) && WritableBytes() == initialSize
    {
      storage := new char[CHEAP_PREPEND + initialSize](_ => '\0');
      readerIndex, writerIndex := CHEAP_PREPEND, CHEAP_PREPEND;
    }

    function ReadableBytes(): nat
      requires Valid()
      reads this
    {
      writerIndex - readerIndex
    }

    function WritableBytes(): nat
      requires Valid()
      reads this
    {
      storage.Length - writerIndex
    }

    method RetrieveAll()
      requires Valid()
      modifies `readerIndex, `writerIndex
      ensures Valid() && Readable() == "" && readerIndex == writerIndex == CHEAP_PREPEND
    {
      readerIndex, writerIndex := CHEAP_PREPEND, CHEAP_PREPEND;
    }

    /** Drops a prefix; asking for too much drops everything. */
    method Retrieve(len: nat)
      requires Valid()
      modifies `readerIndex, `writerIndex
      ensures Valid()
      ensures Readable() == old(Readable())[if len < old(ReadableBytes()) then len else old(ReadableBytes())..]
      ensures if len < old(ReadableBytes()) then readerIndex == old(readerIndex) + len && writerIndex == old(writerIndex)
              else readerIndex == writerIndex == CHEAP_PREPEND
    {
      if len < ReadableBytes() {
        readerIndex := readerIndex + len;
      } else {
        RetrieveAll();
      }
    }

    method RetrieveAsString(len: nat) returns (result: string)
      requires Valid() && len <= ReadableBytes()
      modifies `readerIndex, `writerIndex
      ensures Valid() && old(Readable()) == result + Readable() && |result| == len
    {
      ghost var was := Readable();
      result := storage[readerIndex..readerIndex + len];
      assert result == was[..len];
      Retrieve(len);
      assert Readable() == was[len..];
    }

    /** Copies the readable bytes forward to the start.  The two ranges may overlap; the copy is
        exact because it runs from the front and the destination is in front of the source. */
    method Compact()
      requires Valid() && readerIndex > CHEAP_PREPEND
      modifies `readerIndex, `writerIndex, storage
      ensures Valid() && Readable() == old(Readable()) && readerIndex == CHEAP_PREPEND
    {
      var readable := ReadableBytes();
      var i := 0;
      while i < readable
        invariant 0 <= i <= readable && readerIndex == old(readerIndex) && writerIndex == old(writerIndex)
        invariant storage[CHEAP_PREPEND..CHEAP_PREPEND + i] == old(Readable())[..i]
        invariant storage[readerIndex + i..writerIndex] == old(Readable())[i..]
      {
        assert storage[readerIndex + i] == storage[readerIndex + i..writerIndex][0] == old(Readable())[i];
        storage[CHEAP_PREPEND + i] := storage[readerIndex + i];
        i := i + 1;
        assert storage[readerIndex + i..writerIndex] == old(Readable())[i..];
      }
      readerIndex := CHEAP_PREPEND;
      writerIndex := CHEAP_PREPEND + readable;
    }

    method Resize(size: nat)
      requires Valid() && size >= storage.Length
      modifies `storage
      ensures Valid() && fresh(storage) && storage.Length == size && Readable() == old(Readable())
    {
      var was := storage;
      storage := new char[size](i requires 0 <= i reads this, was => if i < was.Length then was[i] else '\0');
      assert Readable() == was[readerIndex..writerIndex];
    }

    /** Grows the array or slides the bytes to the front, whichever gives the room. */
    method MakeSpace(len: nat)
      requires Valid() && WritableBytes() < len
      modifies this, storage
      ensures Valid() && Readable() == old(Readable()) && WritableBytes() >= len
      ensures if old(WritableBytes() + readerIndex) >= len + CHEAP_PREPEND
              then storage == old(storage) && readerIndex == CHEAP_PREPEND < old(readerIndex)
              else fresh(storage) && storage.Length == writerIndex + len && readerIndex == old(readerIndex)
    {
      if WritableBytes() + readerIndex < len + CHEAP_PREPEND {
        Resize(writerIndex + len);
      } else {
        Compact();
      }
    }

    /** Bytes are moved only if the room behind them is too small, and the array is replaced only
        if the room in front of them does not help either. */
    method EnsureWritableBytes(len: nat)
      requires Valid()
      modifies this, storage
      ensures Valid() && Readable() == old(Readable()) && WritableBytes() >= len
      ensures if old(WritableBytes()) >= len
              then storage == old(storage) && readerIndex == old(readerIndex) && writerIndex == old(writerIndex)
              else if old(WritableBytes() + readerIndex) >= len + CHEAP_PREPEND
              then storage == old(storage) && readerIndex == CHEAP_PREPEND
              else fresh(storage) && storage.Length == writerIndex + len && readerIndex == old(readerIndex)
    {
      if WritableBytes() < len {
        MakeSpace(len);
      }
    }

    /** Stores `data` behind the readable bytes, where there is room for it. */
    method Store(data: string)
      requires Valid() && |data| <= WritableBytes()
      modifies `writerIndex, storage
      ensures Valid() && Readable() == old(Readable()) + data
      ensures readerIndex == old(readerIndex) && writerIndex == old(writerIndex) + |data|
    {
      forall i | 0 <= i < |data| {
        storage[writerIndex + i] := data[i];
      }
      writerIndex := writerIndex + |data|;
    }

    method Append(data: string)
      requires Valid()
      modifies this, storage
      ensures Valid() && Readable() == old(Readable()) + data
      ensures if old(WritableBytes() + readerIndex) >= |data| + CHEAP_PREPEND then storage == old(storage)
              else fresh(storage) && writerIndex == storage.Length && readerIndex == old(readerIndex)
    {
      EnsureWritableBytes(|data|);
      Store(data);
    }

    /** What `readv` may deliver: the free space, and a stack buffer if that space is small. */
    function Offered(): nat
      requires Valid()
      reads this
    {
      WritableBytes() + if WritableBytes() < EXTRA_SIZE then EXTRA_SIZE else 0
    }

    /** The system fills the free space first and the stack buffer with the rest. */
    method ReadFd(result: ReadResult) returns (n: int)
      requires Valid() && (result.Received? ==> |result.bytes| <= Offered())
      modifies this, storage
      ensures Valid() && n == (if result.Received? then |result.bytes| else -1)
      ensures Readable() == old(Readable()) + if result.Received? then result.bytes else ""
      ensures storage != old(storage) ==> fresh(storage)
    {
      match result {
        case ReadFailed => n := -1;
        case Received(bytes) =>
          n := |bytes|;
          var writable := WritableBytes();
          if n <= writable {
            Store(bytes);
          } else {
            Store(bytes[..writable]);
            assert writerIndex == storage.Length;
            var extra := bytes[writable..];
            assert bytes[..writable] + extra == bytes;
            Append(extra);
          }
      }
    }

    /** Position of the first CR LF among the readable bytes, or their number if there is none. */
    method SearchCrlf() returns (i: nat)
      requires Valid()
      ensures i == FindCrlf(Readable())
    {
      i := 0;
      while
        && i < ReadableBytes()
        && !(i + 1 < ReadableBytes() && storage[readerIndex + i] == '\r' && storage[readerIndex + i + 1] == '\n')
        invariant i <= ReadableBytes()
        invariant forall j :: 0 <= j < i ==> !CrlfAt(Readable(), j)
      {
        i := i + 1;
      }
      FindCrlfIs(Readable(), i);
    }

    /** The readable bytes up to `end`. */
    method Peek(end: nat) returns (line: string)
      requires Valid() && end <= ReadableBytes()
      ensures line == Readable()[..end]
    {
      line := storage[readerIndex..readerIndex + end];
    }
  }
}
