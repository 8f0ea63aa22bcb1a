/** Reading a file of a remote disk chunk by chunk. */
module RemoteFile {
  import opened Wire

  const CHUNK_SIZE: nat := 3 * 1024 * 1024

  /** A buffer into which bytes have been copied, from a position on. */
  function Spliced(target: Bytes, from: nat, bytes: Bytes): Bytes
    requires from + |bytes| <= |target|
  {
    target[..from] + bytes + target[from + |bytes|..]
  }

  /** Two adjoining copies into the same target make one longer copy. */
  lemma {:induction false} CopiesJoin(target: Bytes, from: nat, source: Bytes, start: nat, mid: nat, end: nat)
    requires start <= mid <= end <= |source| && from + (end - start) <= |target|
    ensures Spliced(Spliced(target, from, source[start..mid]), from + (mid - start), source[mid..end])
            == Spliced(target, from, source[start..end])
  {
    var once := Spliced(target, from, source[start..mid]);
    assert source[start..mid] + source[mid..end] == source[start..end];
    assert once[..from + (mid - start)] == target[..from] + source[start..mid];
    assert once[from + (end - start)..] == target[from + (end - start)..];
  }

  /**
   The disk a file is read from. The n-th read fails or not as `fails` says, and otherwise
   returns a part of the file from the offset on, as long as `length` says within the limits:
   something if there is anything left, and no more than a chunk.
   */
  class GuestHandle {
    const contents: Bytes
    const fails: nat -> bool
    const length: nat -> nat
    var calls: nat

    constructor (contents: Bytes, fails: nat -> bool, length: nat -> nat)
      ensures this.contents == contents && this.fails == fails && this.length == length && calls == 0
    {
      this.contents, this.fails, this.length := contents, fails, length;
      calls := 0;
    }

    ghost predicate LastFailed()
      reads this
    {
      calls > 0 && fails(calls - 1)
    }

    method ReadChunk(offset: nat) returns (r: Option<Bytes>)
      modifies this
      ensures calls == old(calls) + 1
      ensures r.None? <==> LastFailed()
      ensures r.Some? && offset < |contents| ==>
                1 <= |r.value| <= |contents| - offset && r.value == contents[offset..offset + |r.value|]
      ensures r.Some? && offset >= |contents| ==> r.value == []
    {
      var n := calls;
      calls := calls + 1;
      if fails(n) {
        return None;
      }
      if offset >= |contents| {
        return Some([]);
      }
      var most := Min(CHUNK_SIZE, |contents| - offset);
      var size := Max(1, Min(length(n), most));
      r := Some(contents[offset..offset + size]);
    }
  }

  class FileChunk {
    const buffer: Bytes
    var offset: nat

    ghost predicate Valid()
      reads this
    {
      offset <= |buffer|
    }

    ghost function Available(): Bytes
      requires Valid()
      reads this
    {
      buffer[offset..]
    }

    constructor (buffer: Bytes)
      ensures Valid() && this.buffer == buffer && offset == 0
    {
      this.buffer := buffer;
      offset := 0;
    }

    /** Moves as much as fits from the chunk into the target, from position `from` on. */
    method Fill(target: array<byte>, from: nat) returns (copied: nat)
      requires Valid() && from <= target.Length
      modifies this, target
      ensures Valid()
      ensures copied == Min(|old(Available())|, target.Length - from)
      ensures Available() == old(Available())[copied..]
      ensures target[..] == Spliced(old(target[..]), from, old(Available())[..copied])
    {
      var available := buffer[offset..];
      if available == [] {
        return 0;
      }
      if |available| <= target.Length - from {
        copied := |available|;
      } else {
        copied := target.Length - from;
      }
      forall i | 0 <= i < copied {
        target[from + i] := available[i];
      }
      offset := offset + copied;
      assert target[..] == Spliced(old(target[..]), from, available[..copied]);
    }
  }

  class FileReader {
    const handle: GuestHandle
    const fileSize: nat
    var currentOffset: nat
    var chunk: FileChunk

    /** What is left of the chunk is the part of the file that is to be read next. */
    ghost predicate Valid()
      reads this, handle, chunk
    {
      && fileSize == |handle.contents|
      && currentOffset <= fileSize
      && chunk.Valid()
      && currentOffset + |chunk.Available()| <= fileSize
      && chunk.Available() == handle.contents[currentOffset..currentOffset + |chunk.Available()|]
    }

    /** A file that could be opened; its first chunk is the result of the first read. */
    constructor (handle: GuestHandle, fileSize: nat, firstChunk: Bytes)
      requires fileSize == |handle.contents| && firstChunk <= handle.contents
      ensures Valid() && fresh(chunk) && this.handle == handle && this.fileSize == fileSize && currentOffset == 0
    {
      this.handle, this.fileSize := handle, fileSize;
      currentOffset := 0;
      chunk := new FileChunk(firstChunk);
    }

    static method Open(handle: GuestHandle, fileSize: nat) returns (r: Option<FileReader>)
      requires fileSize == |handle.contents|
      modifies handle
      ensures r.Some? ==> fresh(r.value) && fresh(r.value.chunk) && r.value.Valid()
      ensures r.Some? ==> r.value.handle == handle && r.value.currentOffset == 0
      ensures r.None? <==> handle.LastFailed()
    {
      var first := handle.ReadChunk(0);
      if first.None? {
        return None;
      }
      var reader := new FileReader(handle, fileSize, first.value);
      r := Some(reader);
    }

    method BufferNewChunk() returns (r: Option<bool>)
      requires Valid() && chunk.Available() == []
      modifies this`chunk, handle
      ensures Valid() && (chunk == old(chunk) || fresh(chunk))
      ensures r.Some? ==> (r.value <==> currentOffset < fileSize)
      ensures r.Some? && r.value ==> chunk.Available() != []
      ensures r != Some(true) ==> chunk == old(chunk)
      ensures r.None? ==> handle.LastFailed()
    {
      var next := handle.ReadChunk(currentOffset);
      if next.None? {
        return None;
      }
      if next.value == [] {
        r := Some(false);
      } else {
        chunk := new FileChunk(next.value);
        assert chunk.Available() == next.value;
        r := Some(true);
      }
    }

    /** Takes what the chunk has and the target has room for, and moves on by that much. */
    method TakeFromChunk(target: array<byte>, from: nat) returns (copied: nat)
      requires Valid() && from <= target.Length
      modifies this`currentOffset, chunk, target
      ensures Valid() && currentOffset == old(currentOffset) + copied <= fileSize
      ensures copied == Min(|old(chunk.Available())|, target.Length - from)
      ensures copied == 0 && from < target.Length ==> chunk.Available() == []
      ensures target[..] == Spliced(old(target[..]), from, handle.contents[old(currentOffset)..currentOffset])
    {
      ghost var available := chunk.Available();
      copied := chunk.Fill(target, from);
      currentOffset := currentOffset + copied;
      assert available[..copied] == handle.contents[old(currentOffset)..currentOffset];
    }

    /**
     Fills the target from position `from` on. Whatever the chunks, it ends, and it stops short
     of the end of the target only at the end of the file.
     */
    method ReadTo(target: array<byte>, from: nat) returns (r: Option<nat>)
      requires Valid() && from <= target.Length
      modifies this, handle, chunk, target
      ensures Valid() && (chunk == old(chunk) || fresh(chunk))
      ensures r.None? ==> handle.LastFailed()
      ensures r.Some? ==>
                var start := old(currentOffset);
                && r.value == Min(target.Length - from, fileSize - start)
                && currentOffset == start + r.value
                && target[..] == Spliced(old(target[..]), from, handle.contents[start..currentOffset])
    {
      ghost var was, start := target[..], currentOffset;
      var read := 0;
      while currentOffset < fileSize && read < target.Length - from
        invariant Valid() && (chunk == old(chunk) || fresh(chunk))
        invariant read <= target.Length - from
        invariant currentOffset == start + read
        invariant target[..] == Spliced(was, from, handle.contents[start..currentOffset])
        decreases fileSize - currentOffset, chunk.Available() == []
      {
        ghost var mid := currentOffset;
        var copied := TakeFromChunk(target, from + read);
        CopiesJoin(was, from, handle.contents, start, mid, currentOffset);
        if copied == 0 {
          var hasData := BufferNewChunk();
          if hasData.None? {
            return None;
          }
          if !hasData.value {
            break;
          }
        }
        read := read + copied;
      }
      r := Some(read);
    }

    method GetSize() returns (size: nat)
      ensures size == fileSize
    {
      size := fileSize;
    }
  }
}
