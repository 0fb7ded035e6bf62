/** Reading a source file whose size and digest are known in advance, through a handle
    that may return fewer bytes than asked for. */
module SourceReading {
  import opened Text
  import opened Wrappers

  newtype Byte = x: int | 0 <= x < 256

  type Bytes = seq<Byte>

  const CHUNK_SIZE := 1024 * 1024

  /** A time, and whether it names its zone. */
  datatype Time = Time(instant: int, zoned: bool)

  datatype File = File(content: Bytes, statSize: int, modified: int)

  datatype Expectation = Expectation(size: int, sha256: string, modified: Option<Time>)

  datatype ReadError = BadExpectation | SizeDiffers | TimeDiffers | BytesDiffer

  /** The file is as expected. */
  predicate Matches(hash: Bytes -> string, f: File, e: Expectation) {
    && 0 <= e.size && IsSha256(e.sha256) && f.statSize == e.size
    && (e.modified.Some? ==> e.modified.value.zoned && e.modified.value.instant == f.modified)
    && |f.content| == e.size && hash(f.content) == e.sha256
  }

  function Min(x: int, y: int): int {
    if x < y then x else y
  }

  /** An open file. `pattern` says how much a read at each position would like to return;
      a read returns at least one byte unless it is at the end. */
  class Handle {
    const file: File
    const pattern: nat -> nat
    var position: nat

    ghost predicate Valid()
      reads this
    {
      position <= |file.content|
    }

    constructor (file: File, pattern: nat -> nat)
      ensures this.file == file && this.pattern == pattern && position == 0 && Valid()
    {
      this.file, this.pattern, position := file, pattern, 0;
    }

    method Read(limit: nat) returns (chunk: Bytes)
      requires Valid() && 0 < limit
      modifies this
      ensures Valid() && position == old(position) + |chunk|
      ensures |chunk| <= limit && chunk == file.content[old(position)..position]
      ensures chunk == [] <==> old(position) == |file.content|
    {
      var most := Min(limit, |file.content| - position);
      var wanted := Min(pattern(position), most);
      var count := if wanted == 0 && most > 0 then 1 else wanted;
      chunk := file.content[position..position + count];
      position := position + count;
    }
  }

  /** For every pattern of short reads: at most one byte beyond the expected size is
      consumed, and the result is the file's bytes exactly when size, time and digest are
      as expected; nothing is read when the first checks fail. */
  method ReadSourceBytes(h: Handle, e: Expectation, hash: Bytes -> string) returns (r: Result<Bytes, ReadError>)
    requires h.Valid() && h.position == 0
    modifies h
    ensures h.Valid() && h.position <= |h.file.content| && (0 <= e.size ==> h.position <= e.size + 1)
    ensures r.Ok? <==>
              && IsSha256(e.sha256) && e.size == h.file.statSize == |h.file.content|
              && (e.modified.Some? ==> e.modified.value == Time(h.file.modified, true))
              && hash(h.file.content) == e.sha256
    ensures r.Ok? <==> Matches(hash, h.file, e)
    ensures r.Ok? ==> r.value == h.file.content
    ensures || e.size < 0 || e.size != h.file.statSize || !IsSha256(e.sha256)
            || (e.modified.Some? && e.modified.value != Time(h.file.modified, true)) ==>
              h.position == 0
  {
    if e.size < 0 || !IsSha256(e.sha256) { return Err(BadExpectation); }
    if h.file.statSize != e.size { return Err(SizeDiffers); }
    if e.modified.Some? && (!e.modified.value.zoned || e.modified.value.instant != h.file.modified) {
      return Err(TimeDiffers);
    }
    var chunks: seq<Bytes> := [];
    var digested: Bytes := [];
    var length := 0;
    var chunk := h.Read(Min(CHUNK_SIZE, e.size - length + 1));
    while chunk != []
      invariant h.Valid() && 0 <= length <= e.size && length + |chunk| == h.position <= e.size + 1
      invariant digested == Joined(chunks) == h.file.content[..length]
      invariant chunk == h.file.content[length..h.position]
      invariant chunk == [] ==> length == |h.file.content|
      decreases |h.file.content| - length
    {
      length := length + |chunk|;
      if length > e.size { return Err(SizeDiffers); }
      JoinedAppend(chunks, chunk);
      digested := digested + chunk;
      chunks := chunks + [chunk];
      chunk := h.Read(Min(CHUNK_SIZE, e.size - length + 1));
    }
    assert h.file.content[..length] == h.file.content;
    if length != e.size || hash(digested) != e.sha256 { return Err(BytesDiffer); }
    r := Ok(Joined(chunks));
  }

  function Joined(chunks: seq<Bytes>): Bytes {
    if chunks == [] then [] else Joined(chunks[..|chunks| - 1]) + chunks[|chunks| - 1]
  }

  lemma JoinedAppend(chunks: seq<Bytes>, chunk: Bytes)
    ensures Joined(chunks + [chunk]) == Joined(chunks) + chunk
  {
    assert (chunks + [chunk])[..|chunks|] == chunks;
  }
}
