/**
 * The pipe enumerator: a loop of directory queries against the pipe
 * namespace, each filling a buffer with a chain of FILE_DIRECTORY_INFORMATION
 * records that are walked through their NextEntryOffset fields.
 *
 * The operating system is an input: whether the namespace could be opened,
 * and the list of (status, buffer) results that successive queries return.
 */
module Native {
  import opened Wrappers
  import opened Exceptions
  import opened FixedWidth
  import opened AclModels
  import opened PipeModels

  type byte = b: int | 0 <= b < 256

  /** Byte offsets of the FILE_DIRECTORY_INFORMATION fields the walker reads. */
  const NextEntryOffsetAt: nat := 0
  const EndOfFileAt: nat := 40          // LARGE_INTEGER; LowPart is its first four bytes
  const AllocationSizeAt: nat := 48     // LARGE_INTEGER; LowPart is its first four bytes
  const FileNameLengthAt: nat := 60
  /** `FileNameOffset`: where the name starts, after seven 8-byte-aligned fields. */
  const FileNameOffset: nat := 64

  /**
   * `IsNtSuccess`: an NTSTATUS counts as success when its severity (the top
   * two bits) is "success" or "informational".
   */
  function IsNtSuccess(code: uint32): (ok: bool)
    ensures ok <==> code as int / 0x4000_0000 <= 1
  {
    code <= 0x7FFF_FFFF
  }

  /** Peeling the low byte off a little-endian value. */
  lemma LowByte(lo: int, rest: int)
    requires 0 <= lo < 0x100 && 0 <= rest
    ensures (lo + 0x100 * rest) % 0x100 == lo && (lo + 0x100 * rest) / 0x100 == rest
  {
  }

  /** A little-endian 32-bit read from the buffer. */
  function U32At(buf: seq<byte>, off: nat): (v: uint32)
    requires off + 4 <= |buf|
    ensures v as int % 0x100 == buf[off] as int
    ensures v as int / 0x100 % 0x100 == buf[off + 1] as int
    ensures v as int / 0x1_0000 % 0x100 == buf[off + 2] as int
    ensures v as int / 0x100_0000 == buf[off + 3] as int
  {
    var b0, b1, b2, b3 := buf[off] as int, buf[off + 1] as int, buf[off + 2] as int, buf[off + 3] as int;
    LowByte(b2, b3);
    LowByte(b1, b2 + 0x100 * b3);
    LowByte(b0, b1 + 0x100 * (b2 + 0x100 * b3));
    assert b0 + 0x100 * b1 + 0x1_0000 * b2 + 0x100_0000 * b3 == b0 + 0x100 * (b1 + 0x100 * (b2 + 0x100 * b3));
    (b0 + 0x100 * b1 + 0x1_0000 * b2 + 0x100_0000 * b3) as uint32
  }

  /** Why a buffer is not a well-formed chain of entries. */
  datatype Malformed =
    | Truncated        // a header or a name runs past the end of the buffer
    | Surrogate        // a UTF-16 surrogate code unit, which a Dafny char cannot hold

  /** The fields of one directory entry that a pipe snapshot is built from. */
  datatype RawEntry = RawEntry(endOfFileLow: uint32, allocationSizeLow: uint32, name: string)

  /** `PtrToStringUni`: UTF-16 code units from `pos` up to (not including) a NUL unit. */
  function ReadName(buf: seq<byte>, pos: nat): (r: Result<string, Malformed>)
    ensures r.Success? ==> pos + 2 <= |buf|
    ensures r.Success? ==> forall i :: 0 <= i < |r.value| ==> r.value[i] != 0 as char
    decreases |buf| - pos
  {
    if pos + 2 > |buf| then Failure(Truncated)
    else
      var unit := buf[pos] as int + 0x100 * buf[pos + 1] as int;
      if unit == 0 then Success("")
      else if 0xD800 <= unit < 0xE000 then Failure(Surrogate)
      else
        match ReadName(buf, pos + 2)
        case Failure(e) => Failure(e)
        case Success(rest) => Success([unit as char] + rest)
  }

  /**
   * One entry at `off`: the low halves of EndOfFile and AllocationSize and the
   * NUL-terminated name at `off + FileNameOffset`. FileNameLength is not read.
   */
  function ReadEntry(buf: seq<byte>, off: nat): (r: Result<RawEntry, Malformed>)
    ensures r.Success? ==> off + FileNameOffset + 2 <= |buf|
    ensures r.Success? ==> r.value.endOfFileLow == U32At(buf, off + EndOfFileAt)
    ensures r.Success? ==> r.value.allocationSizeLow == U32At(buf, off + AllocationSizeAt)
  {
    if off + FileNameOffset > |buf| then Failure(Truncated)
    else
      match ReadName(buf, off + FileNameOffset)
      case Failure(e) => Failure(e)
      case Success(name) => Success(RawEntry(U32At(buf, off + EndOfFileAt), U32At(buf, off + AllocationSizeAt), name))
  }

  /**
   * The inner loop of `GetPipes`: the entry at `off`, then the chain that
   * continues at `off + NextEntryOffset`; an offset of zero ends the batch.
   */
  function WalkBatch(buf: seq<byte>, off: nat): (r: Result<seq<RawEntry>, Malformed>)
    ensures r.Success? ==> |r.value| >= 1
    ensures r.Success? ==> ReadEntry(buf, off).Success? && r.value[0] == ReadEntry(buf, off).value
    decreases |buf| - off
  {
    match ReadEntry(buf, off)
    case Failure(e) => Failure(e)
    case Success(entry) =>
      var next := U32At(buf, off + NextEntryOffsetAt);
      if next == 0 then Success([entry])
      else
        match WalkBatch(buf, off + next as nat)
        case Failure(e) => Failure(e)
        case Success(rest) => Success([entry] + rest)
  }

  /** The snapshot built from one entry: the caller's host, no ACL, the connection counts. */
  function ToPipe(host: string, e: RawEntry): (p: PipeModel)
    ensures Valid(p) && p.host == host && p.name == e.name && p.acl == EmptyAcl
    ensures p.maxConnections == ToInt32(e.allocationSizeLow)
    ensures p.activeConnections == e.endOfFileLow
  {
    Create(host, e.name, ToInt32(e.allocationSizeLow), e.endOfFileLow, None)
  }

  /** One snapshot per entry, in chain order, duplicates kept. */
  function ToPipes(host: string, es: seq<RawEntry>): (ps: seq<PipeModel>)
    ensures |ps| == |es|
    ensures forall i :: 0 <= i < |es| ==> ps[i] == ToPipe(host, es[i])
  {
    if |es| == 0 then [] else [ToPipe(host, es[0])] + ToPipes(host, es[1..])
  }

  /** One directory query's result as the operating system returns it. */
  datatype Query = Query(status: uint32, buffer: seq<byte>)

  /** What one `GetPipes` call yields, with the RestartScan argument of each query it issued. */
  datatype Enumeration = Enumeration(pipes: seq<PipeModel>, restartFlags: seq<bool>)

  /** The operating system eventually reports a non-success status (the namespace is finite). */
  predicate Ends(os: seq<Query>) {
    exists i :: 0 <= i < |os| && !IsNtSuccess(os[i].status)
  }

  /** The index of the first query whose status is not a success. */
  function FirstFailure(os: seq<Query>): (k: nat)
    requires Ends(os)
    ensures k < |os| && !IsNtSuccess(os[k].status)
    ensures forall i :: 0 <= i < k ==> IsNtSuccess(os[i].status)
  {
    if !IsNtSuccess(os[0].status) then 0
    else
      assert Ends(os[1..]) by {
        var i :| 0 <= i < |os| && !IsNtSuccess(os[i].status);
        assert os[1..][i - 1] == os[i];
      }
      1 + FirstFailure(os[1..])
  }

  /** Every successful query's buffer is a well-formed chain: what the OS guarantees. */
  predicate WellFormed(qs: seq<Query>) {
    forall i :: 0 <= i < |qs| ==> WalkBatch(qs[i].buffer, 0).Success?
  }

  /** All snapshots of a run of well-formed batches, batch after batch. */
  function BatchPipes(host: string, qs: seq<Query>): (ps: seq<PipeModel>)
    requires WellFormed(qs)
  {
    if |qs| == 0 then []
    else BatchPipes(host, qs[..|qs| - 1]) + ToPipes(host, WalkBatch(qs[|qs| - 1].buffer, 0).value)
  }

  /** Appending one more well-formed batch appends its snapshots. */
  lemma BatchPipesSnoc(host: string, qs: seq<Query>, n: nat)
    requires WellFormed(qs) && n < |qs|
    ensures WellFormed(qs[..n]) && WellFormed(qs[..n + 1])
    ensures BatchPipes(host, qs[..n + 1]) == BatchPipes(host, qs[..n]) + ToPipes(host, WalkBatch(qs[n].buffer, 0).value)
  {
    assert qs[..n + 1][..n] == qs[..n];
  }

  /** The RestartScan argument of query `k`: only the first query restarts the scan. */
  predicate RestartFlagsOk(flags: seq<bool>) {
    |flags| >= 1 && flags[0] && forall k :: 1 <= k < |flags| ==> !flags[k]
  }

  /** Appending the flag of the next query keeps only the first one set. */
  lemma RestartFlagsStep(flags: seq<bool>)
    requires |flags| == 0 || RestartFlagsOk(flags)
    ensures RestartFlagsOk(flags + [|flags| == 0])
  {
  }

  /** A failing query no later than the first failure is the first failure. */
  lemma FailureIsFirst(os: seq<Query>, i: nat)
    requires Ends(os) && i <= FirstFailure(os) && i < |os| && !IsNtSuccess(os[i].status)
    ensures i == FirstFailure(os)
  {
  }

  /**
   * `GetPipes`: a namespace that cannot be opened throws IOException before
   * anything is yielded; otherwise queries are issued until the first
   * non-success status, which ends the enumeration without an error.
   */
  method GetPipes(host: string, namespaceOpened: bool, os: seq<Query>) returns (r: Result<Enumeration, Exception>)
    requires Ends(os)
    requires WellFormed(os[..FirstFailure(os)])
    ensures r.Failure? <==> !namespaceOpened
    ensures r.Failure? ==> r.error == IO
    ensures r.Success? ==> |r.value.restartFlags| == FirstFailure(os) + 1
    ensures r.Success? ==> RestartFlagsOk(r.value.restartFlags)
    ensures r.Success? ==> r.value.pipes == BatchPipes(host, os[..FirstFailure(os)])
  {
    if !namespaceOpened {
      return Failure(IO);
    }
    var pipes, flags := QueryLoop(host, os);
    return Success(Enumeration(pipes, flags));
  }

  /**
   * The query loop of `GetPipes`: one query per iteration, the first with
   * RestartScan set, each successful batch walked and its snapshots yielded.
   */
  method QueryLoop(host: string, os: seq<Query>) returns (pipes: seq<PipeModel>, flags: seq<bool>)
    requires Ends(os)
    requires WellFormed(os[..FirstFailure(os)])
    ensures |flags| == FirstFailure(os) + 1
    ensures RestartFlagsOk(flags)
    ensures pipes == BatchPipes(host, os[..FirstFailure(os)])
  {
    ghost var k := FirstFailure(os);
    ghost var ok := os[..k];
    pipes, flags := [], [];
    var isFirstQuery := true;
    var i := 0;
    while true
      invariant 0 <= i <= k
      invariant |flags| == i && isFirstQuery == (i == 0)
      invariant i > 0 ==> RestartFlagsOk(flags)
      invariant WellFormed(ok[..i]) && pipes == BatchPipes(host, ok[..i])
      decreases k - i
    {
      RestartFlagsStep(flags);
      flags := flags + [isFirstQuery];
      if !IsNtSuccess(os[i].status) {
        FailureIsFirst(os, i);
        assert ok[..i] == ok;
        break;
      }
      assert i < k && ok[i] == os[i];
      BatchPipesSnoc(host, ok, i);
      pipes := pipes + ToPipes(host, WalkBatch(os[i].buffer, 0).value);
      isFirstQuery := false;
      i := i + 1;
    }
  }
}
