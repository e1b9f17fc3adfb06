/** The write-ahead log: records in a file, the recovery of a file that was cut anywhere, and what
    replaying a log gives. The checksum is left open, and so is the cipher of encrypted logs, except
    that applying it twice at one offset gives the bytes back. */
module Wal {
  import opened Store
  import opened Encoding

  const HEADER := 37

  datatype Record = Record(op: Byte, key: Key, value: Bytes, expiresAt: int, version: nat, timestamp: int)

  datatype Codec = Codec(crc: Bytes -> nat, crypt: (nat, Bytes) -> Bytes)

  ghost predicate CodecOk(c: Codec) {
    (forall b: Bytes :: Short(c, b)) && forall off: nat, b: Bytes :: Undoes(c, off, b)
  }

  ghost predicate Short(c: Codec, b: Bytes) {
    c.crc(b) < Pow256(4)
  }

  ghost predicate Undoes(c: Codec, off: nat, b: Bytes) {
    |c.crypt(off, b)| == |b| && c.crypt(off, c.crypt(off, b)) == b
  }

  ghost predicate Fits(r: Record) {
    && |r.key| < Pow256(4) && |r.value| < Pow256(4) && r.version < Pow256(8) && Int64(r.expiresAt) && Int64(r.timestamp)
  }

  function Size(r: Record): nat {
    HEADER + |r.key| + |r.value|
  }

  /** The header without its checksum. */
  function Fields(r: Record): (b: Bytes)
    requires -TWO63 <= r.expiresAt < TWO63 && -TWO63 <= r.timestamp < TWO63
    ensures |b| == 33
  {
    [r.op] + BigEndian(|r.key|, 4) + BigEndian(|r.value|, 4) + BigEndian(Bits64(r.expiresAt), 8)
    + BigEndian(r.version, 8) + BigEndian(Bits64(r.timestamp), 8)
  }

  function Data(c: Codec, r: Record, off: nat): Bytes {
    c.crypt(off + HEADER, r.key) + c.crypt(off + HEADER + |r.key|, r.value)
  }

  function EncodeRecord(c: Codec, r: Record, off: nat): Bytes
    requires -TWO63 <= r.expiresAt < TWO63 && -TWO63 <= r.timestamp < TWO63
  {
    Fields(r) + BigEndian(c.crc(Fields(r) + Data(c, r, off)), 4) + Data(c, r, off)
  }

  /** The record at `off`; none if it is cut short or its checksum is wrong. */
  function ReadRecord(c: Codec, file: Bytes, off: nat): Option<Record> {
    if off + HEADER > |file| then None
    else
      var kLen, vLen := FromBigEndian(file[off + 1..off + 5]), FromBigEndian(file[off + 5..off + 9]);
      if off + HEADER + kLen + vLen > |file| then None
      else
        var data := file[off + HEADER..off + HEADER + kLen + vLen];
        if c.crc(file[off..off + 33] + data) != FromBigEndian(file[off + 33..off + 37]) then None
        else
          Some(Record(file[off], c.crypt(off + HEADER, file[off + HEADER..off + HEADER + kLen]),
                      c.crypt(off + HEADER + kLen, file[off + HEADER + kLen..off + HEADER + kLen + vLen]),
                      Signed64(FromBigEndian(file[off + 9..off + 17])), FromBigEndian(file[off + 17..off + 25]),
                      Signed64(FromBigEndian(file[off + 25..off + 33]))))
  }

  // ---------------------------------------------------------------- one record

  lemma FieldLayout(r: Record)
    requires Fits(r)
    ensures var b := Fields(r);
            && b[0] == r.op && b[1..5] == BigEndian(|r.key|, 4) && b[5..9] == BigEndian(|r.value|, 4)
            && b[9..17] == BigEndian(Bits64(r.expiresAt), 8) && b[17..25] == BigEndian(r.version, 8)
            && b[25..33] == BigEndian(Bits64(r.timestamp), 8)
  {}

  /** The header of a record can be read as soon as its 37 bytes are there. */
  lemma HeaderRound(c: Codec, r: Record, off: nat, file: Bytes)
    requires Fits(r) && CodecOk(c) && off + 33 <= |file| && file[off..off + 33] == Fields(r)
    ensures file[off] == r.op
    ensures FromBigEndian(file[off + 1..off + 5]) == |r.key| && FromBigEndian(file[off + 5..off + 9]) == |r.value|
    ensures Signed64(FromBigEndian(file[off + 9..off + 17])) == r.expiresAt
        && FromBigEndian(file[off + 17..off + 25]) == r.version
    ensures Signed64(FromBigEndian(file[off + 25..off + 33])) == r.timestamp
  {
    var b := Fields(r);
    Widths();
    FieldLayout(r);
    assert file[off..off + 33][0] == file[off];
    BigEndianRound(|r.key|, 4);
    BigEndianRound(|r.value|, 4);
    BigEndianRound(Bits64(r.expiresAt), 8);
    BigEndianRound(r.version, 8);
    BigEndianRound(Bits64(r.timestamp), 8);
    Slice(file, off, b, 1, 5);
    Slice(file, off, b, 5, 9);
    Slice(file, off, b, 9, 17);
    Slice(file, off, b, 17, 25);
    Slice(file, off, b, 25, 33);
  }

  lemma RecordLayout(c: Codec, r: Record, off: nat)
    requires Fits(r) && CodecOk(c)
    ensures var e, k := EncodeRecord(c, r, off), |r.key|;
            && |e| == Size(r) && e[0..33] == Fields(r) && e[33..37] == BigEndian(c.crc(Fields(r) + Data(c, r, off)), 4)
            && e[37..Size(r)] == Data(c, r, off) && e[37..37 + k] == c.crypt(off + HEADER, r.key)
            && e[37 + k..Size(r)] == c.crypt(off + HEADER + k, r.value)
  {
    assert Undoes(c, off + HEADER, r.key) && Undoes(c, off + HEADER + |r.key|, r.value);
  }

  lemma RecordSize(c: Codec, r: Record, off: nat)
    requires Fits(r) && CodecOk(c)
    ensures |EncodeRecord(c, r, off)| == Size(r)
  {
    RecordLayout(c, r, off);
  }

  /** A record that is all there is read back. */
  lemma RecordRound(c: Codec, r: Record, off: nat, file: Bytes)
    requires Fits(r) && CodecOk(c) && off + Size(r) <= |file|
    requires |EncodeRecord(c, r, off)| == Size(r) && file[off..off + Size(r)] == EncodeRecord(c, r, off)
    ensures ReadRecord(c, file, off) == Some(r)
  {
    assert Short(c, Fields(r) + Data(c, r, off));
    assert Undoes(c, off + HEADER, r.key) && Undoes(c, off + HEADER + |r.key|, r.value);
    RecordPlaced(c, r, off, file);
    HeaderRound(c, r, off, file);
    BigEndianRound(c.crc(Fields(r) + Data(c, r, off)), 4);
  }

  /** The parts of a record in the file that holds it. */
  lemma RecordPlaced(c: Codec, r: Record, off: nat, file: Bytes)
    requires Fits(r) && CodecOk(c) && off + Size(r) <= |file|
    requires |EncodeRecord(c, r, off)| == Size(r) && file[off..off + Size(r)] == EncodeRecord(c, r, off)
    ensures var k := |r.key|;
            && file[off..off + 33] == Fields(r)
            && file[off + 33..off + 37] == BigEndian(c.crc(Fields(r) + Data(c, r, off)), 4)
            && file[off + 37..off + Size(r)] == Data(c, r, off)
            && file[off + 37..off + 37 + k] == c.crypt(off + HEADER, r.key)
            && file[off + 37 + k..off + Size(r)] == c.crypt(off + HEADER + k, r.value)
  {
    var e, k := EncodeRecord(c, r, off), |r.key|;
    RecordLayout(c, r, off);
    Slice(file, off, e, 0, 33);
    Slice(file, off, e, 33, 37);
    Slice(file, off, e, 37, Size(r));
    Slice(file, off, e, 37, 37 + k);
    Slice(file, off, e, 37 + k, Size(r));
  }

  /** A record that is cut anywhere is not read. */
  lemma TornRecord(c: Codec, r: Record, off: nat, file: Bytes)
    requires Fits(r) && CodecOk(c) && off <= |file| < off + Size(r) && file[off..] <= EncodeRecord(c, r, off)
    ensures ReadRecord(c, file, off).None?
  {
    if off + HEADER <= |file| {
      RecordLayout(c, r, off);
      var e := EncodeRecord(c, r, off);
      assert file[off..off + 33] == file[off..][..33] == e[..33] == e[0..33];
      HeaderRound(c, r, off, file);
    }
  }

  // ---------------------------------------------------------------- the whole log

  ghost predicate AllFit(recs: seq<Record>) {
    forall i :: 0 <= i < |recs| ==> Fits(recs[i])
  }

  function LogSize(recs: seq<Record>): nat {
    if recs == [] then 0 else LogSize(recs[..|recs| - 1]) + Size(recs[|recs| - 1])
  }

  /** The records one after the other, the first at offset `start`. */
  ghost function EncodeLog(c: Codec, recs: seq<Record>, start: nat): Bytes
    requires AllFit(recs)
  {
    if recs == [] then []
    else EncodeLog(c, recs[..|recs| - 1], start) + EncodeRecord(c, recs[|recs| - 1],
        start + LogSize(recs[..|recs| - 1]))
  }

  lemma {:induction false} LogLength(c: Codec, recs: seq<Record>, start: nat)
    requires AllFit(recs) && CodecOk(c)
    ensures |EncodeLog(c, recs, start)| == LogSize(recs)
  {
    if recs != [] {
      LogLength(c, recs[..|recs| - 1], start);
      RecordLayout(c, recs[|recs| - 1], start + LogSize(recs[..|recs| - 1]));
    }
  }

  lemma {:induction false} LogPrefix(c: Codec, recs: seq<Record>, start: nat, i: nat)
    requires AllFit(recs) && i <= |recs|
    ensures EncodeLog(c, recs[..i], start) <= EncodeLog(c, recs, start)
  {
    if i == |recs| {
      assert recs[..i] == recs;
    } else {
      var front := recs[..|recs| - 1];
      assert front[..i] == recs[..i];
      LogPrefix(c, front, start, i);
    }
  }

  /** Where record `i` lies. */
  lemma LogAt(c: Codec, recs: seq<Record>, start: nat, i: nat)
    requires AllFit(recs) && i < |recs|
    ensures EncodeLog(c, recs[..i + 1], start) ==
        EncodeLog(c, recs[..i], start) + EncodeRecord(c, recs[i], start + LogSize(recs[..i]))
  {
    assert recs[..i + 1][..i] == recs[..i];
  }

  /** How many records lie wholly within the first `n` bytes. */
  ghost function Whole(recs: seq<Record>, n: nat): (w: nat)
    ensures w <= |recs|
  {
    if recs == [] || LogSize(recs) <= n then |recs| else Whole(recs[..|recs| - 1], n)
  }

  lemma {:induction false} SizeGrows(recs: seq<Record>, i: nat)
    requires i <= |recs|
    ensures LogSize(recs[..i]) <= LogSize(recs)
  {
    if i == |recs| {
      assert recs[..i] == recs;
    } else {
      assert recs[..|recs| - 1][..i] == recs[..i];
      SizeGrows(recs[..|recs| - 1], i);
    }
  }

  /** It is the number at which the next record would go beyond. */
  lemma {:induction false} WholeIs(recs: seq<Record>, n: nat, i: nat)
    requires i <= |recs| && LogSize(recs[..i]) <= n && (i < |recs| ==> LogSize(recs[..i + 1]) > n)
    ensures Whole(recs, n) == i
  {
    if i == |recs| {
      assert recs[..i] == recs;
    } else {
      SizeGrows(recs, i + 1);
      var front := recs[..|recs| - 1];
      assert front[..i] == recs[..i];
      if i < |front| { assert front[..i + 1] == recs[..i + 1]; }
      WholeIs(front, n, i);
    }
  }

  /** `file` is a log of `recs` that was cut at some byte after its header. */
  ghost predicate Cut(c: Codec, file: Bytes, start: nat, recs: seq<Record>) {
    CodecOk(c) && AllFit(recs) && start <= |file| && file[start..] <= EncodeLog(c, recs, start)
  }

  /** The bytes of record `i` follow those of the records before it. */
  lemma LogHas(c: Codec, recs: seq<Record>, start: nat, i: nat)
    requires AllFit(recs) && CodecOk(c) && i < |recs|
    ensures EncodeLog(c, recs[..i], start) + EncodeRecord(c, recs[i], start + LogSize(recs[..i])) <=
        EncodeLog(c, recs, start)
  {
    LogPrefix(c, recs, start, i + 1);
    LogAt(c, recs, start, i);
  }

  /** `rest` is `e` and more, or a proper prefix of it. */
  ghost predicate Begins(rest: Bytes, e: Bytes) {
    if |rest| >= |e| then rest[..|e|] == e else rest <= e
  }

  /** What a cut log holds where record `i` should be. */
  lemma CutAt(c: Codec, file: Bytes, start: nat, recs: seq<Record>, i: nat, off: nat, e: Bytes)
    requires Cut(c, file, start, recs) && i < |recs| && off == start + LogSize(recs[..i]) <= |file|
    requires e == EncodeRecord(c, recs[i], off)
    ensures Begins(file[off..], e)
  {
    var before := EncodeLog(c, recs[..i], start);
    LogHas(c, recs, start, i);
    LogLength(c, recs[..i], start);
    Window(file[start..], EncodeLog(c, recs, start), before, e);
    TailTail(file, start, |before|);
  }

  lemma TailTail(file: Bytes, i: nat, j: nat)
    requires i + j <= |file|
    ensures file[i + j..] == file[i..][j..]
  {}

  /** A record is read if it is all there, and otherwise nothing is. */
  lemma ReadBegun(c: Codec, file: Bytes, r: Record, off: nat)
    requires CodecOk(c) && Fits(r) && off <= |file| && Begins(file[off..], EncodeRecord(c, r, off))
    ensures ReadRecord(c, file, off) == if off + Size(r) <= |file| then Some(r) else None
  {
    RecordSize(c, r, off);
    if off + Size(r) <= |file| {
      assert file[off..off + Size(r)] == file[off..][..Size(r)];
      RecordRound(c, r, off, file);
    } else {
      TornRecord(c, r, off, file);
    }
  }

  /** All of record `i` is there. */
  ghost predicate IsWhole(file: Bytes, recs: seq<Record>, i: nat, off: nat) {
    i < |recs| && off + Size(recs[i]) <= |file|
  }

  /** The next step of recovery, having read `i` records. */
  method ReadNext(c: Codec, file: Bytes, off: nat, ghost start: nat, ghost recs: seq<Record>, ghost i: nat)
    returns (r: Option<Record>)
    requires Cut(c, file, start, recs) && i <= |recs| && off == start + LogSize(recs[..i]) <= |file|
    ensures r == if IsWhole(file, recs, i, off) then Some(recs[i]) else None
  {
    if i < |recs| {
      CutAt(c, file, start, recs, i, off, EncodeRecord(c, recs[i], off));
      ReadBegun(c, file, recs[i], off);
    } else {
      assert recs[..i] == recs;
      CutEnds(c, file, start, recs);
    }
    r := ReadRecord(c, file, off);
  }

  lemma Window(part: Bytes, all: Bytes, before: Bytes, e: Bytes)
    requires part <= all && before + e <= all && |before| <= |part|
    ensures Begins(part[|before|..], e)
  {
    var rest := part[|before|..];
    forall n | 0 <= n < |rest| && n < |e| ensures rest[n] == e[n] {
      assert rest[n] == all[|before| + n] == (before + e)[|before| + n];
    }
  }

  lemma CutEnds(c: Codec, file: Bytes, start: nat, recs: seq<Record>)
    requires Cut(c, file, start, recs) && start + LogSize(recs) <= |file|
    ensures |file| == start + LogSize(recs)
  {
    LogLength(c, recs, start);
  }

  // ---------------------------------------------------------------- the log file

  datatype Clause = CFit | CBytes

  ghost predicate Holds(p: Clause, c: Codec, file: Bytes, start: nat, log: seq<Record>) {
    match p
    case CFit => CodecOk(c) && AllFit(log) && start <= |file|
    case CBytes => AllFit(log) && start <= |file| && file[start..] == EncodeLog(c, log, start)
  }

  /** `file` is the log of `log` behind a header of `start` bytes. */
  ghost predicate Logged(c: Codec, file: Bytes, start: nat, log: seq<Record>) {
    forall p: Clause :: Holds(p, c, file, start, log)
  }

  lemma LoggedFrom(c: Codec, file: Bytes, start: nat, log: seq<Record>)
    requires CodecOk(c) && AllFit(log) && start <= |file| && file[start..] == EncodeLog(c, log, start)
    ensures Logged(c, file, start, log)
  {
    forall p: Clause ensures Holds(p, c, file, start, log) { match p { case _ => } }
  }

  lemma LoggedIs(c: Codec, file: Bytes, start: nat, log: seq<Record>)
    requires Logged(c, file, start, log)
    ensures CodecOk(c) && AllFit(log) && start <= |file| && file[start..] == EncodeLog(c, log, start)
    ensures |file| == start + LogSize(log)
  {
    assert Holds(CFit, c, file, start, log) && Holds(CBytes, c, file, start, log);
    LogLength(c, log, start);
  }

  lemma ConcatTail(a: Bytes, b: Bytes, i: nat)
    requires i <= |a|
    ensures (a + b)[i..] == a[i..] + b
  {}

  lemma LoggedAppend(c: Codec, file: Bytes, start: nat, log: seq<Record>, r: Record)
    requires Logged(c, file, start, log) && Fits(r)
    ensures Logged(c, file + EncodeRecord(c, r, |file|), start, log + [r]) && |EncodeRecord(c, r, |file|)| == Size(r)
  {
    LoggedIs(c, file, start, log);
    RecordSize(c, r, |file|);
    AppendLog(c, log, r, start);
    var e := EncodeRecord(c, r, |file|);
    ConcatTail(file, e, start);
    LoggedFrom(c, file + e, start, log + [r]);
  }

  lemma LoggedPrefix(c: Codec, file: Bytes, start: nat, log: seq<Record>, n: nat, end: nat)
    requires Logged(c, file, start, log) && n <= |log| && end == start + LogSize(log[..n])
    ensures end <= |file| && Logged(c, file[..end], start, log[..n])
  {
    LoggedIs(c, file, start, log);
    SizeGrows(log, n);
    LogPrefix(c, log, start, n);
    LogLength(c, log[..n], start);
    Truncated(file, start, EncodeLog(c, log, start), EncodeLog(c, log[..n], start));
    LoggedFrom(c, file[..end], start, log[..n]);
  }

  lemma LoggedCut(c: Codec, file: Bytes, start: nat, recs: seq<Record>, n: nat, end: nat)
    requires Cut(c, file, start, recs) && n <= |recs| && end == start + LogSize(recs[..n]) <= |file|
    ensures Logged(c, file[..end], start, recs[..n])
  {
    LogPrefix(c, recs, start, n);
    LogLength(c, recs[..n], start);
    Truncated(file, start, EncodeLog(c, recs, start), EncodeLog(c, recs[..n], start));
    LoggedFrom(c, file[..end], start, recs[..n]);
  }

  class LogFile {
    const codec: Codec
    /** The length of the file header. */
    const start: nat
    var file: Bytes
    var currentOffset: nat
    ghost var log: seq<Record>

    ghost predicate Valid()
      reads this
    {
      Logged(codec, file, start, log) && currentOffset == |file|
    }

    constructor (codec: Codec, header: Bytes)
      requires CodecOk(codec)
      ensures Valid() && log == [] && start == |header|
    {
      this.codec, start, file, currentOffset, log := codec, |header|, header, |header|, [];
      LoggedFrom(codec, header, |header|, []);
    }

    /** Appends a record; returns where its value begins. */
    method Append(r: Record) returns (valueOffset: nat)
      requires Valid() && Fits(r)
      modifies this
      ensures Valid() && log == old(log) + [r] && old(file) <= file
      ensures valueOffset + |r.value| == |file|
    {
      var off := currentOffset;
      LoggedAppend(codec, file, start, log, r);
      file := file + EncodeRecord(codec, r, off);
      currentOffset := off + HEADER + |r.key| + |r.value|;
      log := log + [r];
      return off + HEADER + |r.key|;
    }

    /** Drops everything after the first `n` records: the rollback of a batch. */
    method TruncateTo(offset: nat, ghost n: nat)
      requires Valid() && n <= |log| && offset == start + LogSize(log[..n])
      modifies this
      ensures Valid() && log == old(log)[..n]
    {
      LoggedPrefix(codec, file, start, log, n, offset);
      file := file[..offset];
      currentOffset := offset;
      log := log[..n];
    }

    /** Recovery of a file that was cut anywhere after its header: exactly the records that lie wholly
        before the cut, and the file is left as the log of those records, so that later appends
        continue it. */
    method Recover(ghost recs: seq<Record>) returns (records: seq<Record>)
      requires Cut(codec, file, start, recs)
      modifies this
      ensures records == recs[..Whole(recs, |old(file)| - start)]
      ensures Valid() && log == records && file <= old(file)
    {
      var totalRead: nat;
      records, totalRead := ReadWhole(codec, file, start, recs);
      LoggedCut(codec, file, start, recs, |records|, totalRead);
      if totalRead < |file| { file := file[..totalRead]; }
      assert file == old(file)[..totalRead];
      currentOffset := totalRead;
      log := records;
    }
  }

  /** The reading loop of recovery. */
  method ReadWhole(c: Codec, file: Bytes, start: nat, ghost recs: seq<Record>)
    returns (records: seq<Record>, totalRead: nat)
    requires Cut(c, file, start, recs)
    ensures |records| <= |recs| && records == recs[..|records|] && |records| == Whole(recs, |file| - start)
    ensures totalRead == start + LogSize(recs[..|records|]) <= |file|
  {
    records := [];
    totalRead := start;
    while true
      invariant |records| <= |recs| && records == recs[..|records|]
      invariant totalRead == start + LogSize(recs[..|records|]) <= |file|
      decreases |recs| - |records|
    {
      var r := ReadNext(c, file, totalRead, start, recs, |records|);
      if r.None? { break; }
      SizeStep(recs, |records|);
      totalRead := totalRead + HEADER + |r.value.key| + |r.value.value|;
      records := records + [r.value];
    }
    RecoveredCount(file, start, recs, |records|);
  }

  lemma AppendLog(c: Codec, log: seq<Record>, r: Record, start: nat)
    requires AllFit(log) && Fits(r)
    ensures EncodeLog(c, log + [r], start) == EncodeLog(c, log, start) + EncodeRecord(c, r, start + LogSize(log))
  {
    assert (log + [r])[..|log|] == log;
  }

  lemma SizeStep(recs: seq<Record>, i: nat)
    requires i < |recs|
    ensures LogSize(recs[..i + 1]) == LogSize(recs[..i]) + Size(recs[i]) && recs[..i + 1] == recs[..i] + [recs[i]]
  {
    assert recs[..i + 1][..i] == recs[..i];
  }

  /** Recovery stops at the number of records that lie wholly before the cut. */
  lemma RecoveredCount(file: Bytes, start: nat, recs: seq<Record>, n: nat)
    requires n <= |recs| && start + LogSize(recs[..n]) <= |file| && !IsWhole(file, recs, n, start + LogSize(recs[..n]))
    ensures n == Whole(recs, |file| - start)
  {
    if n < |recs| { SizeStep(recs, n); }
    WholeIs(recs, |file| - start, n);
  }

  lemma Truncated(file: Bytes, start: nat, all: Bytes, part: Bytes)
    requires start <= |file| && file[start..] <= all && part <= all && start + |part| <= |file|
    ensures file[..start + |part|][start..] == part
  {
    forall i | 0 <= i < |part| ensures file[..start + |part|][start..][i] == part[i] {
      assert file[..start + |part|][start..][i] == file[start..][i] == all[i];
    }
  }
}
