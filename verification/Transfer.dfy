/** The upload of an image archive: bytes read from a descriptor at a moving offset. */
module Transfer {
  import opened Text

  const WORD: nat := 0x1_0000_0000_0000_0000
  const MAX_SIGNED: nat := 0x7FFF_FFFF_FFFF_FFFF

  datatype Stat = Stat(regular: bool, size: int)
  datatype Pread = Interrupted | Failed | Got(bytes: string)
  datatype Reply = Abort | Chunk(bytes: string)
  datatype Refusal = InvalidFd | StatFailed | NotRegular | InvalidSize | TooLarge

  function Min(a: nat, b: nat): nat {
    if a < b then a else b
  }

  function Join(chunks: seq<string>): string {
    if chunks == [] then "" else Join(chunks[..|chunks| - 1]) + chunks[|chunks| - 1]
  }

  /** How many of the calls ask for at least one byte, in the arithmetic of `size_t`. */
  function Asking(calls: seq<(nat, nat)>): nat {
    if calls == [] then 0
    else Asking(calls[..|calls| - 1]) +
         (if calls[|calls| - 1].0 * calls[|calls| - 1].1 % WORD != 0 then 1 else 0)
  }

  lemma LastChunk(chunks: seq<string>, chunk: string)
    ensures Join(chunks + [chunk]) == Join(chunks) + chunk
  {
    assert (chunks + [chunk])[..|chunks|] == chunks;
  }

  lemma NextSlice(file: string, i: nat, j: nat)
    requires i <= j <= |file|
    ensures file[..i] + file[i..j] == file[..j]
  {
  }

  /** An upload in progress, with the file it reads and what was handed out so far. */
  class FdUpload {
    const file: string
    const size: nat
    var offset: nat
    var interrupts: nat   // the signals still to come
    ghost var chunks: seq<string>
    ghost var faults: nat   // reads that have failed, EINTR not counted

    ghost predicate Valid() reads this {
      && size <= MAX_SIGNED
      && offset <= size && offset <= |file|
      && Join(chunks) == file[..offset]
    }

    constructor (file: string, size: nat, interrupts: nat)
      requires size <= MAX_SIGNED
      ensures Valid() && this.file == file && this.size == size
      ensures offset == 0 && chunks == []
    {
      this.file, this.size, this.interrupts := file, size, interrupts;
      offset, chunks, faults := 0, [], 0;
    }

    /** `pread`: fails, is interrupted, or returns some of the bytes that are there. */
    method Read(count: nat) returns (r: Pread)
      requires Valid() && 0 < count
      modifies this`interrupts, this`faults
      ensures Valid()
      ensures r.Interrupted? ==> interrupts < old(interrupts)
      ensures !r.Interrupted? ==> interrupts == old(interrupts)
      ensures faults == old(faults) + if r.Failed? then 1 else 0
      ensures r.Got? ==>
        && |r.bytes| <= Min(count, |file| - offset)
        && (r.bytes == "" <==> offset == |file|)
        && r.bytes == file[offset..offset + |r.bytes|]
    {
      var interrupted: bool, failed: bool, n: int := *, *, *;
      if interrupted && interrupts > 0 {
        interrupts := interrupts - 1;
        return Interrupted;
      }
      if failed {
        faults := faults + 1;
        return Failed;
      }
      var available := Min(count, |file| - offset);
      var k := if 0 < n <= available then n else available;
      r := Got(file[offset..offset + k]);
    }

    /** `read_fd_upload`. */
    method ReadFdUpload(length: nat, nitems: nat) returns (r: Reply)
      requires Valid()
      modifies this
      ensures Valid()
      ensures r.Abort? ==> offset == old(offset) && chunks == old(chunks) && faults > old(faults)
      ensures r.Chunk? ==> faults == old(faults)
      ensures r.Chunk? ==>
        && chunks == old(chunks) + [r.bytes]
        && offset == old(offset) + |r.bytes|
        && r.bytes == file[old(offset)..offset]
        && |r.bytes| <= length * nitems
        && (r.bytes == "" <==> length * nitems % WORD == 0 || old(offset) == Min(size, |file|))
      ensures interrupts <= old(interrupts)
    {
      var requested := length * nitems % WORD;
      WordOfProduct(length * nitems);
      if requested == 0 || offset >= size {
        LastChunk(chunks, "");
        chunks := chunks + [""];
        return Chunk("");
      }
      var remaining := size - offset;
      var to_read := Min(Min(requested, remaining), MAX_SIGNED);
      while true
        invariant Valid() && offset == old(offset) && chunks == old(chunks) && faults == old(faults)
        invariant interrupts <= old(interrupts)
        decreases interrupts
      {
        var n := Read(to_read);
        match n
        case Got(bytes) =>
          LastChunk(chunks, bytes);
          NextSlice(file, offset, offset + |bytes|);
          chunks, offset := chunks + [bytes], offset + |bytes|;
          return Chunk(bytes);
        case Interrupted =>
        case Failed =>
          return Abort;
      }
    }

    /**
      * Any sequence of calls hands out the file in order, nothing twice and nothing left
      * out; each call that asks for something moves on until the size is reached.
      */
    method Send(calls: seq<(nat, nat)>) returns (body: string, aborted: bool)
      requires Valid()
      modifies this
      ensures Valid()
      ensures offset >= old(offset) && body == file[old(offset)..offset]
      ensures aborted <==> faults > old(faults)
      ensures !aborted ==> offset >= Min(Min(size, |file|), old(offset) + Asking(calls))
      ensures !aborted && old(offset) == 0 && size <= |file| && Asking(calls) >= size ==>
        offset == size && body == file[..size]
    {
      body, aborted := "", false;
      for i := 0 to |calls|
        invariant Valid()
        invariant offset >= old(offset) && body == file[old(offset)..offset]
        invariant faults == old(faults)
        invariant offset >= Min(Min(size, |file|), old(offset) + Asking(calls[..i]))
      {
        assert calls[..i + 1][..i] == calls[..i];
        ghost var before := offset;
        var r := ReadFdUpload(calls[i].0, calls[i].1);
        if r.Abort? {
          aborted := true;
          return;
        }
        SlicesJoin(file, old(offset), before, offset);
        body := body + r.bytes;
      }
      assert calls[..|calls|] == calls;
    }
  }

  lemma WordOfProduct(n: nat)
    ensures n % WORD <= n
  {
  }

  lemma SlicesJoin(file: string, i: nat, j: nat, k: nat)
    requires i <= j <= k <= |file|
    ensures file[i..j] + file[j..k] == file[i..k]
  {
  }

  /** `load_image_archive_fd` up to its first transfer: the size is checked against the file. */
  method LoadImageArchiveFd(fd: int, stat: Option<Stat>, size: nat, file: string, interrupts: nat)
    returns (error: Option<Refusal>, upload: FdUpload?)
    requires stat.Some? && stat.value.regular ==> stat.value.size == |file|
    ensures error.None? <==>
      fd >= 0 && stat.Some? && stat.value.regular && size <= |file| && size <= MAX_SIGNED
    ensures error.None? ==>
      upload != null && fresh(upload) && upload.Valid() &&
      upload.file == file && upload.size == size <= |file| && upload.offset == 0
  {
    error, upload := None, null;
    if fd < 0 {
      return Some(InvalidFd), null;
    }
    if stat.None? {
      return Some(StatFailed), null;
    }
    if !stat.value.regular {
      return Some(NotRegular), null;
    }
    if stat.value.size < 0 || size > stat.value.size {
      return Some(InvalidSize), null;
    }
    if size > MAX_SIGNED {
      return Some(TooLarge), null;
    }
    upload := new FdUpload(file, size, interrupts);
  }
}
