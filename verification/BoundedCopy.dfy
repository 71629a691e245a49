/** `measure` and `copy_leaf`: bounded reads and writes that make no assumption on how much one call moves. */
module BoundedCopy {
  import opened Outcome
  import opened StagedTree
  import opened Staging

  const CHUNK := 65536

  datatype Stat = Stat(regular: bool, device: int, inode: int, size: nat, mtime: int, links: nat, uid: nat, mode: nat)

  predicate Unchanged(before: Stat, after: Stat) {
    (before.device, before.inode, before.size, before.mtime) == (after.device, after.inode, after.size, after.mtime)
  }

  datatype CopyError = Identity | OverLimit | Changed | WrongBytes | WriteFailed

  datatype Measured = Measured(sha256: string, bytes: nat, retained: seq<Byte>)

  /** An open file: the bytes it has to give before end of file, whatever `fstat` said, and the read position. */
  class Source {
    const stream: seq<Byte>
    var at: nat

    constructor (stream: seq<Byte>)
      ensures this.stream == stream && at == 0
    {
      this.stream, at := stream, 0;
    }

    /** `os.read`: any positive amount up to `ask`, nothing only at end of file. */
    method Read(ask: nat) returns (chunk: seq<Byte>)
      requires at <= |stream| && ask >= 1
      modifies this`at
      ensures |chunk| <= ask && at == old(at) + |chunk| <= |stream|
      ensures chunk == stream[old(at)..at] && (chunk == [] <==> old(at) == |stream|)
    {
      if at == |stream| {
        return [];
      }
      var n :| 1 <= n <= ask && at + n <= |stream|;
      chunk := stream[at..at + n];
      at := at + n;
    }
  }

  /** A file opened for writing; on a healthy device no write fails. */
  class Sink {
    const healthy: bool
    var written: seq<Byte>

    constructor (healthy: bool)
      ensures this.healthy == healthy && written == []
    {
      this.healthy, written := healthy, [];
    }

    /** `os.write`: any part of the data, or a failure that takes nothing. */
    method Write(data: seq<Byte>) returns (n: int)
      requires data != []
      modifies this`written
      ensures n <= |data| && (healthy ==> n >= 1) && written == old(written) + if n > 0 then data[..n] else []
    {
      n :| (if healthy then 1 else -1) <= n <= |data|;
      written := written + if n > 0 then data[..n] else [];
    }

    /** The write loop: everything, or a failure that leaves a prefix. */
    method WriteAll(data: seq<Byte>) returns (ok: bool)
      modifies this`written
      ensures ok ==> written == old(written) + data
      ensures healthy ==> ok
      ensures exists k :: 0 <= k <= |data| && written == old(written) + data[..k]
    {
      var at := 0;
      while at < |data|
        invariant 0 <= at <= |data| && written == old(written) + data[..at]
        decreases |data| - at
      {
        var n := Write(data[at..]);
        if n <= 0 {
          return false;
        }
        assert data[..at] + data[at..][..n] == data[..at + n];
        at := at + n;
      }
      assert data[..|data|] == data;
      ok := true;
    }
  }

  /** What `measure` asks of the file before it reads. */
  predicate Readable(st: Stat, limit: nat, unique: bool, immutable: bool) {
    && st.regular && (unique || immutable ==> st.links == 1) && st.size <= limit
    && (immutable ==> st.uid == 0 && st.mode in {0x100, 0x140})
  }

  /** The file is the one that was opened: same place, size and time of change. */
  ghost predicate SameFile(before: Stat, after: Stat) {
    after.device == before.device && after.inode == before.inode && after.size == before.size && after.mtime == before.mtime
  }

  /** What a file must be to be measured: as large as stated, unchanged, within its limits and of the expected digest. */
  ghost predicate Measurable(stream: seq<Byte>, before: Stat, after: Stat, limit: nat, expected: Option<string>, immutable: bool,
                             unique: bool, hash: seq<Byte> -> string)
  {
    && before.regular && before.size == |stream| <= limit && SameFile(before, after)
    && (unique || immutable ==> before.links == 1)
    && (immutable ==> before.uid == 0 && (before.mode == 256 || before.mode == 320))
    && (expected.Some? ==>
          && hash(stream) == expected.value && |expected.value| == 64
          && forall i :: 0 <= i < 64 ==> '0' <= expected.value[i] <= '9' || 'a' <= expected.value[i] <= 'f')
  }

  /** What a file must be to be copied. */
  ghost predicate Copyable(stream: seq<Byte>, before: Stat, after: Stat, limit: nat, expected: string, single: bool,
                           hash: seq<Byte> -> string)
  {
    && before.regular && before.size == |stream| <= limit && SameFile(before, after)
    && (single ==> before.links == 1) && hash(stream) == expected
  }

  /** The verdict on a whole stream: a function of the file alone. */
  function MeasureOutcome(stream: seq<Byte>, before: Stat, after: Stat, limit: nat, expected: Option<string>, retain: bool,
                          immutable: bool, unique: bool, hash: seq<Byte> -> string): Result<Measured, CopyError>
  {
    if !Readable(before, limit, unique, immutable) then Err(Identity)
    else if |stream| > limit then Err(OverLimit)
    else if !Unchanged(before, after) || |stream| != before.size then Err(Changed)
    else if expected.Some? && (!IsHash(expected.value) || hash(stream) != expected.value) then Err(WrongBytes)
    else Ok(Measured(hash(stream), |stream|, if retain then stream else []))
  }

  /**
    * Whatever sizes the reads return, the outcome is the verdict on the whole stream, and at most one
    * byte beyond the limit is ever read. Every read asks for at least one byte, so an empty read can
    * only mean end of file.
    */
  method Measure(src: Source, before: Stat, after: Stat, limit: nat, expected: Option<string>, retain: bool,
                 immutable: bool, unique: bool, hash: seq<Byte> -> string) returns (r: Result<Measured, CopyError>)
    requires src.at == 0
    modifies src`at
    ensures r == MeasureOutcome(src.stream, before, after, limit, expected, retain, immutable, unique, hash)
    ensures r.Ok? <==> Measurable(src.stream, before, after, limit, expected, immutable, unique, hash)
    ensures r.Ok? ==> r.value == Measured(hash(src.stream), |src.stream|, if retain then src.stream else [])
    ensures src.at <= limit + 1
  {
    if !Readable(before, limit, unique, immutable) {
      return Err(Identity);
    }
    var count, hashed, chunks := 0, [], [];
    while true
      invariant count == src.at <= |src.stream| && count <= limit
      invariant hashed == src.stream[..count] && chunks == if retain then hashed else []
      decreases |src.stream| - count
    {
      var data := src.Read(if CHUNK < limit - count + 1 then CHUNK else limit - count + 1);
      if data == [] {
        break;
      }
      assert src.stream[..count] + data == src.stream[..count + |data|];
      count := count + |data|;
      if count > limit {
        return Err(OverLimit);
      }
      hashed := hashed + data;
      chunks := if retain then chunks + data else chunks;
    }
    assert src.stream[..count] == src.stream;
    if !Unchanged(before, after) || count != before.size {
      return Err(Changed);
    }
    if expected.Some? && (!IsHash(expected.value) || hash(hashed) != expected.value) {
      return Err(WrongBytes);
    }
    return Ok(Measured(hash(hashed), count, chunks));
  }

  /** What `copy_leaf` concludes when no write fails; `single` is the executable mode's demand for one link. */
  function CopyOutcome(stream: seq<Byte>, before: Stat, after: Stat, limit: nat, expected: string, single: bool,
                       hash: seq<Byte> -> string): Result<(), CopyError>
  {
    if !before.regular || (single && before.links != 1) || before.size > limit then Err(Identity)
    else if |stream| > limit then Err(OverLimit)
    else if hash(stream) != expected || |stream| != before.size || !Unchanged(before, after) then Err(Changed)
    else Ok(())
  }

  /**
    * Whatever the reads and writes move, a successful copy has written exactly the source stream, with
    * the expected digest and the initially stated size. A failed one has written a prefix of it, never
    * more than the limit. Unless a write itself failed, which a healthy device rules out, the outcome
    * depends on the source alone.
    */
  method CopyLeaf(src: Source, dst: Sink, before: Stat, after: Stat, limit: nat, expected: string, single: bool,
                  hash: seq<Byte> -> string) returns (r: Result<(), CopyError>)
    requires src.at == 0 && dst.written == []
    modifies src`at, dst`written
    ensures r != Err(WriteFailed) ==> r == CopyOutcome(src.stream, before, after, limit, expected, single, hash)
    ensures r != Err(WriteFailed) ==> (r.Ok? <==> Copyable(src.stream, before, after, limit, expected, single, hash))
    ensures dst.healthy ==> r != Err(WriteFailed)
    ensures r.Ok? ==> dst.written == src.stream && hash(dst.written) == expected && |dst.written| == before.size
    ensures dst.written <= src.stream && |dst.written| <= limit && src.at <= limit + 1
  {
    if !before.regular || (single && before.links != 1) || before.size > limit {
      return Err(Identity);
    }
    var count, hashed := 0, [];
    while true
      invariant count == src.at <= |src.stream| && count <= limit
      invariant hashed == dst.written == src.stream[..count]
      decreases |src.stream| - count
    {
      var data := src.Read(if CHUNK < limit - count + 1 then CHUNK else limit - count + 1);
      if data == [] {
        break;
      }
      assert src.stream[..count] + data == src.stream[..count + |data|];
      count := count + |data|;
      if count > limit {
        return Err(OverLimit);
      }
      hashed := hashed + data;
      var ok := dst.WriteAll(data);
      if !ok {
        assert hashed <= src.stream;
        return Err(WriteFailed);
      }
    }
    assert src.stream[..count] == src.stream;
    if hash(hashed) != expected || count != before.size || !Unchanged(before, after) {
      return Err(Changed);
    }
    return Ok(());
  }
}
