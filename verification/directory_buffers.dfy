/**
 * The layout the directory walker reads, written out: an encoder for chains of
 * FILE_DIRECTORY_INFORMATION records and the proof that the walker reads back
 * exactly the entries that were encoded.
 */
module DirectoryBuffers {
  import opened Wrappers
  import opened FixedWidth
  import opened Native

  /** Little-endian bytes of a 32-bit value. */
  function U32Bytes(v: uint32): (bs: seq<byte>)
    ensures |bs| == 4
  {
    var n := v as int;
    [n % 0x100, n / 0x100 % 0x100, n / 0x100 / 0x100 % 0x100, n / 0x100 / 0x100 / 0x100]
  }

  /** A name the walker can read back: no NUL, every char one UTF-16 code unit, a sane length. */
  predicate EncodableName(name: string) {
    && |name| < 0x1000_0000
    && forall i :: 0 <= i < |name| ==> name[i] != '\0' && (name[i] as int) < 0x1_0000
  }

  predicate Encodable(e: RawEntry) {
    EncodableName(e.name)
  }

  /** UTF-16LE code units of a name (without the terminator). */
  function NameBytes(name: string): (bs: seq<byte>)
    requires EncodableName(name)
    ensures |bs| == 2 * |name|
  {
    if |name| == 0 then []
    else [name[0] as int % 0x100, name[0] as int / 0x100] + NameBytes(name[1..])
  }

  /** The size of one encoded record: header, name and NUL terminator. */
  function EntrySize(e: RawEntry): (n: uint32)
    requires Encodable(e)
    ensures n as int == FileNameOffset + 2 * |e.name| + 2
  {
    (FileNameOffset + 2 * |e.name| + 2) as uint32
  }

  /** The 64 header bytes of a record; the fields the walker does not read are zero. */
  function Header(e: RawEntry, next: uint32): (h: seq<byte>)
    requires Encodable(e)
    ensures |h| == FileNameOffset
    ensures forall j :: 0 <= j < 4 ==> h[NextEntryOffsetAt + j] == U32Bytes(next)[j]
    ensures forall j :: 0 <= j < 4 ==> h[EndOfFileAt + j] == U32Bytes(e.endOfFileLow)[j]
    ensures forall j :: 0 <= j < 4 ==> h[AllocationSizeAt + j] == U32Bytes(e.allocationSizeLow)[j]
  {
    seq(FileNameOffset, i requires 0 <= i < FileNameOffset =>
      if i < 4 then U32Bytes(next)[i]
      else if EndOfFileAt <= i < EndOfFileAt + 4 then U32Bytes(e.endOfFileLow)[i - EndOfFileAt]
      else if AllocationSizeAt <= i < AllocationSizeAt + 4 then U32Bytes(e.allocationSizeLow)[i - AllocationSizeAt]
      else if FileNameLengthAt <= i < FileNameLengthAt + 4 then U32Bytes((2 * |e.name|) as uint32)[i - FileNameLengthAt]
      else 0)
  }

  /** One record with the given NextEntryOffset: header, UTF-16 name, NUL unit. */
  function EntryBytes(e: RawEntry, next: uint32): (bs: seq<byte>)
    requires Encodable(e)
    ensures |bs| == EntrySize(e) as int
  {
    Header(e, next) + NameBytes(e.name) + [0, 0]
  }

  /** A batch as the operating system lays it out: records back to back, the last with offset zero. */
  function EncodeBatch(es: seq<RawEntry>): (bs: seq<byte>)
    requires |es| >= 1 && forall i :: 0 <= i < |es| ==> Encodable(es[i])
  {
    if |es| == 1 then EntryBytes(es[0], 0)
    else EntryBytes(es[0], EntrySize(es[0])) + EncodeBatch(es[1..])
  }

  /** A 32-bit read of encoded bytes gives back the value. */
  lemma U32RoundTrip(buf: seq<byte>, off: nat, v: uint32)
    requires off + 4 <= |buf|
    requires forall j :: 0 <= j < 4 ==> buf[off + j] == U32Bytes(v)[j]
    ensures U32At(buf, off) == v
  {
    var n := v as int;
    assert buf[off] == U32Bytes(v)[0] && buf[off + 1] == U32Bytes(v)[1];
    assert buf[off + 2] == U32Bytes(v)[2] && buf[off + 3] == U32Bytes(v)[3];
    assert n == n % 0x100 + 0x100 * (n / 0x100);
    assert n / 0x100 == n / 0x100 % 0x100 + 0x100 * (n / 0x100 / 0x100);
    assert n / 0x100 / 0x100 == n / 0x100 / 0x100 % 0x100 + 0x100 * (n / 0x100 / 0x100 / 0x100);
  }

  /** A 32-bit read at `p + k` depends only on the bytes from `p` on. */
  lemma U32Frame(b1: seq<byte>, p1: nat, b2: seq<byte>, p2: nat, k: nat)
    requires p1 <= |b1| && p2 <= |b2| && b1[p1..] == b2[p2..] && p1 + k + 4 <= |b1|
    ensures U32At(b1, p1 + k) == U32At(b2, p2 + k)
  {
    assert b1[p1 + k] == b1[p1..][k] && b2[p2 + k] == b2[p2..][k];
    assert b1[p1 + k + 1] == b1[p1..][k + 1] && b2[p2 + k + 1] == b2[p2..][k + 1];
    assert b1[p1 + k + 2] == b1[p1..][k + 2] && b2[p2 + k + 2] == b2[p2..][k + 2];
    assert b1[p1 + k + 3] == b1[p1..][k + 3] && b2[p2 + k + 3] == b2[p2..][k + 3];
  }

  /** A 32-bit read below `n` depends only on the first `n` bytes. */
  lemma U32Prefix(b1: seq<byte>, b2: seq<byte>, off: nat, n: nat)
    requires off + 4 <= n <= |b1| && n <= |b2| && b1[..n] == b2[..n]
    ensures U32At(b1, off) == U32At(b2, off)
  {
    assert b1[off] == b1[..n][off] && b2[off] == b2[..n][off];
    assert b1[off + 1] == b1[..n][off + 1] && b2[off + 1] == b2[..n][off + 1];
    assert b1[off + 2] == b1[..n][off + 2] && b2[off + 2] == b2[..n][off + 2];
    assert b1[off + 3] == b1[..n][off + 3] && b2[off + 3] == b2[..n][off + 3];
  }

  /** The name read at `p` depends only on the bytes from `p` on. */
  lemma {:induction false} ReadNameFrame(b1: seq<byte>, p1: nat, b2: seq<byte>, p2: nat)
    requires p1 <= |b1| && p2 <= |b2| && b1[p1..] == b2[p2..]
    ensures ReadName(b1, p1) == ReadName(b2, p2)
    decreases |b1| - p1
  {
    if p1 + 2 <= |b1| {
      assert b1[p1] == b1[p1..][0] == b2[p2];
      assert b1[p1 + 1] == b1[p1..][1] == b2[p2 + 1];
      assert b1[p1 + 2..] == b1[p1..][2..] == b2[p2..][2..] == b2[p2 + 2..];
      ReadNameFrame(b1, p1 + 2, b2, p2 + 2);
    } else {
      assert |b1[p1..]| == |b2[p2..]|;
    }
  }

  /** The entry read at `p` depends only on the bytes from `p` on. */
  lemma ReadEntryFrame(b1: seq<byte>, p1: nat, b2: seq<byte>, p2: nat)
    requires p1 <= |b1| && p2 <= |b2| && b1[p1..] == b2[p2..]
    ensures ReadEntry(b1, p1) == ReadEntry(b2, p2)
    ensures p1 + 4 <= |b1| ==> U32At(b1, p1) == U32At(b2, p2)
  {
    assert |b1| - p1 == |b2| - p2;
    if p1 + FileNameOffset <= |b1| {
      U32Frame(b1, p1, b2, p2, EndOfFileAt);
      U32Frame(b1, p1, b2, p2, AllocationSizeAt);
      assert b1[p1 + FileNameOffset..] == b1[p1..][FileNameOffset..];
      assert b2[p2 + FileNameOffset..] == b2[p2..][FileNameOffset..];
      ReadNameFrame(b1, p1 + FileNameOffset, b2, p2 + FileNameOffset);
    }
    if p1 + 4 <= |b1| {
      U32Frame(b1, p1, b2, p2, 0);
    }
  }

  /** The first record read after a prefix is the record read without it. */
  lemma FirstEntryShift(pre: seq<byte>, b: seq<byte>, p: nat)
    requires p <= |b|
    ensures ReadEntry(pre + b, |pre| + p) == ReadEntry(b, p)
    ensures p + 4 <= |b| ==> U32At(pre + b, |pre| + p + NextEntryOffsetAt) == U32At(b, p + NextEntryOffsetAt)
  {
    assert (pre + b)[|pre| + p..] == b[p..];
    ReadEntryFrame(pre + b, |pre| + p, b, p);
  }

  /** The chain walked from `p` is the same with any prefix in front of the buffer. */
  lemma {:induction false} WalkBatchShift(pre: seq<byte>, b: seq<byte>, p: nat)
    requires p <= |b|
    ensures WalkBatch(pre + b, |pre| + p) == WalkBatch(b, p)
    decreases |b| - p
  {
    var whole := pre + b;
    FirstEntryShift(pre, b, p);
    if ReadEntry(b, p).Success? {
      var next := U32At(b, p + NextEntryOffsetAt) as nat;
      assert U32At(whole, |pre| + p + NextEntryOffsetAt) as nat == next;
      if next != 0 {
        var far := |pre| + (p + next);
        assert far == |pre| + p + next;
        if p + next <= |b| {
          WalkBatchShift(pre, b, p + next);
          assert WalkBatch(whole, far) == WalkBatch(b, p + next);
        } else {
          WalkBatchPastEnd(whole, far);
          WalkBatchPastEnd(b, p + next);
        }
      }
    }
    WalkBatchSameStep(whole, |pre| + p, b, p);
  }

  /** Two walks agree when their first entries, their offsets and the walks those offsets lead to agree. */
  lemma WalkBatchSameStep(b1: seq<byte>, p1: nat, b2: seq<byte>, p2: nat)
    requires ReadEntry(b1, p1) == ReadEntry(b2, p2)
    requires ReadEntry(b1, p1).Success? ==> U32At(b1, p1 + NextEntryOffsetAt) == U32At(b2, p2 + NextEntryOffsetAt)
    requires ReadEntry(b1, p1).Success? && U32At(b1, p1 + NextEntryOffsetAt) != 0 ==>
      WalkBatch(b1, p1 + U32At(b1, p1 + NextEntryOffsetAt) as nat) == WalkBatch(b2, p2 + U32At(b1, p1 + NextEntryOffsetAt) as nat)
    ensures WalkBatch(b1, p1) == WalkBatch(b2, p2)
  {
  }

  /** A walk that starts past the end of the buffer is truncated. */
  lemma WalkBatchPastEnd(buf: seq<byte>, off: nat)
    requires off > |buf|
    ensures WalkBatch(buf, off) == Failure(Truncated)
  {
  }

  /** A name followed by its NUL terminator reads back as the name. */
  lemma {:induction false} ReadNameRoundTrip(name: string, tail: seq<byte>)
    requires EncodableName(name)
    ensures ReadName(NameBytes(name) + [0, 0] + tail, 0) == Success(name)
  {
    var buf := NameBytes(name) + [0, 0] + tail;
    if |name| > 0 {
      var c := name[0] as int;
      assert buf[0] == c % 0x100 && buf[1] == c / 0x100;
      assert buf[0] as int + 0x100 * buf[1] as int == c;
      assert EncodableName(name[1..]);
      var rest := NameBytes(name[1..]) + [0, 0] + tail;
      assert buf[2..] == rest;
      ReadNameRoundTrip(name[1..], tail);
      ReadNameFrame(buf, 2, rest, 0);
      assert [c as char] + name[1..] == name;
    }
  }

  /** A record reads back as its entry, and its first field as the offset it was given. */
  lemma ReadEntryRoundTrip(e: RawEntry, next: uint32, tail: seq<byte>)
    requires Encodable(e)
    ensures ReadEntry(EntryBytes(e, next) + tail, 0) == Success(e)
    ensures U32At(EntryBytes(e, next) + tail, 0) == next
  {
    var buf := EntryBytes(e, next) + tail;
    U32RoundTrip(buf, NextEntryOffsetAt, next);
    U32RoundTrip(buf, EndOfFileAt, e.endOfFileLow);
    U32RoundTrip(buf, AllocationSizeAt, e.allocationSizeLow);
    var nameBuf := NameBytes(e.name) + [0, 0] + tail;
    assert buf[FileNameOffset..] == nameBuf;
    ReadNameRoundTrip(e.name, tail);
    ReadNameFrame(buf, FileNameOffset, nameBuf, 0);
  }

  /** The walker reads an encoded batch back as exactly the encoded entries, in order. */
  lemma {:induction false} WalkRoundTrip(es: seq<RawEntry>)
    requires |es| >= 1 && forall i :: 0 <= i < |es| ==> Encodable(es[i])
    ensures WalkBatch(EncodeBatch(es), 0) == Success(es)
  {
    if |es| == 1 {
      WalkRoundTripOne(es[0]);
      assert [es[0]] == es;
    } else {
      WalkRoundTrip(es[1..]);
      WalkRoundTripCons(es[0], es[1..]);
      assert [es[0]] + es[1..] == es;
    }
  }

  /** A batch of one record reads back as that record. */
  lemma WalkRoundTripOne(e: RawEntry)
    requires Encodable(e)
    ensures WalkBatch(EncodeBatch([e]), 0) == Success([e])
  {
    ReadEntryRoundTrip(e, 0, []);
    assert EntryBytes(e, 0) + [] == EncodeBatch([e]);
    WalkBatchLast(EncodeBatch([e]), 0, e);
  }

  /** A record in front of a batch that reads back adds its entry in front. */
  lemma WalkRoundTripCons(e: RawEntry, tl: seq<RawEntry>)
    requires Encodable(e) && |tl| >= 1 && forall i :: 0 <= i < |tl| ==> Encodable(tl[i])
    requires WalkBatch(EncodeBatch(tl), 0) == Success(tl)
    ensures forall i :: 0 <= i < |[e] + tl| ==> Encodable(([e] + tl)[i])
    ensures WalkBatch(EncodeBatch([e] + tl), 0) == Success([e] + tl)
  {
    var head := EntryBytes(e, EntrySize(e));
    var rest := EncodeBatch(tl);
    LinkedRecord(e, rest);
    WalkBatchConcat(head, rest, e, tl);
    assert ([e] + tl)[0] == e && ([e] + tl)[1..] == tl;
  }

  /** A record whose offset is its own size reads back as its entry, pointing just past itself. */
  lemma LinkedRecord(e: RawEntry, rest: seq<byte>)
    requires Encodable(e)
    ensures var head := EntryBytes(e, EntrySize(e));
      && ReadEntry(head + rest, 0) == Success(e)
      && 4 <= |head| + |rest| && U32At(head + rest, 0 + NextEntryOffsetAt) as nat == |head| > 0
  {
    ReadEntryRoundTrip(e, EntrySize(e), rest);
  }

  /**
   * A record whose offset is its own length, in front of a buffer that walks
   * to `tail`, walks to its entry followed by `tail`.
   */
  lemma WalkBatchConcat(head: seq<byte>, rest: seq<byte>, e: RawEntry, tail: seq<RawEntry>)
    requires ReadEntry(head + rest, 0) == Success(e)
    requires 4 <= |head| + |rest| && U32At(head + rest, 0 + NextEntryOffsetAt) as nat == |head| > 0
    requires WalkBatch(rest, 0) == Success(tail)
    ensures WalkBatch(head + rest, 0) == Success([e] + tail)
  {
    WalkBatchShift(head, rest, 0);
    WalkBatchLink(head + rest, 0, e, tail);
  }

  /** A record whose offset is zero ends the walk. */
  lemma WalkBatchLast(buf: seq<byte>, off: nat, e: RawEntry)
    requires ReadEntry(buf, off) == Success(e)
    requires off + 4 <= |buf| && U32At(buf, off + NextEntryOffsetAt) == 0
    ensures WalkBatch(buf, off) == Success([e])
  {
  }

  /** A record whose offset is not zero is followed by the walk from that offset. */
  lemma WalkBatchLink(buf: seq<byte>, off: nat, e: RawEntry, tail: seq<RawEntry>)
    requires ReadEntry(buf, off) == Success(e)
    requires off + 4 <= |buf| && U32At(buf, off + NextEntryOffsetAt) != 0
    requires WalkBatch(buf, off + U32At(buf, off + NextEntryOffsetAt) as nat) == Success(tail)
    ensures WalkBatch(buf, off) == Success([e] + tail)
  {
  }

  /** FileNameLength is never consulted: overwriting it does not change what is read. */
  lemma FileNameLengthIgnored(buf: seq<byte>, off: nat, v: seq<byte>)
    requires off + FileNameOffset <= |buf| && |v| == 4
    ensures ReadEntry(buf[..off + FileNameLengthAt] + v + buf[off + FileNameOffset..], off) == ReadEntry(buf, off)
  {
    var buf' := buf[..off + FileNameLengthAt] + v + buf[off + FileNameOffset..];
    assert buf'[off + FileNameOffset..] == buf[off + FileNameOffset..];
    ReadNameFrame(buf', off + FileNameOffset, buf, off + FileNameOffset);
    assert buf'[..off + FileNameLengthAt] == buf[..off + FileNameLengthAt];
    U32Prefix(buf', buf, off + EndOfFileAt, off + FileNameLengthAt);
    U32Prefix(buf', buf, off + AllocationSizeAt, off + FileNameLengthAt);
  }

  /** An entry with an all-ones AllocationSize is a pipe with unlimited (-1) instances. */
  lemma UnlimitedInstances(host: string, eof: uint32, name: string)
    ensures ToPipe(host, RawEntry(eof, 0xFFFF_FFFF, name)).maxConnections == -1
    ensures ToPipe(host, RawEntry(eof, 10, name)).maxConnections == 10
  {
  }
}
