/** The byte formats, written out on examples: what a file or a key looks like on disk. */
module Formats {
  import opened Store
  import opened Encoding
  import opened Entries
  import Bitmap
  import Replay
  import Score
  import SortedSet
  import SSTable
  import ValueLog
  import Wal

  lemma Small4(n: nat)
    requires n < 256
    ensures BigEndian(n, 4) == [0, 0, 0, n]
  {
    assert BigEndian(n / 256, 3) == BigEndian(0, 2) + [0] && BigEndian(0, 2) == BigEndian(0, 1) + [0];
    assert BigEndian(0, 1) == BigEndian(0, 0) + [0];
  }

  lemma Small8(n: nat)
    requires n < 256
    ensures BigEndian(n, 8) == [0, 0, 0, 0, 0, 0, 0, n]
  {
    Small4(0);
    assert BigEndian(0, 5) == BigEndian(0, 4) + [0] && BigEndian(0, 6) == BigEndian(0, 5) + [0];
    assert BigEndian(0, 7) == BigEndian(0, 6) + [0] && BigEndian(n, 8) == BigEndian(0, 7) + [n];
  }

  /** A table record: lengths of key and value, a mark for tombstones, expiry, version, key, value. */
  lemma TableRecord()
    ensures SSTable.EncodeRecord(Entry(Cell([107], 5), Payload([118], false, 7))) ==
              [0, 0, 0, 1] + [0, 0, 0, 1] + [0] + [0, 0, 0, 0, 0, 0, 0, 7] + [0, 0, 0, 0, 0, 0, 0, 5] + [107] + [118]
  {
    RecordParts([118], [118], false, 0);
    Small4(1);
  }

  /** A tombstone has no value. */
  lemma TombstoneRecord()
    ensures SSTable.EncodeRecord(Entry(Cell([107], 5), Payload([118], true, 7))) ==
              [0, 0, 0, 1] + [0, 0, 0, 0] + [1] + [0, 0, 0, 0, 0, 0, 0, 7] + [0, 0, 0, 0, 0, 0, 0, 5] + [107] + []
  {
    RecordParts([118], [], true, 1);
    Small4(0);
    Small4(1);
  }

  lemma RecordParts(value: Bytes, kept: Bytes, deleted: bool, mark: Byte)
    requires kept == (if deleted then [] else value) && mark == (if deleted then 1 else 0)
    ensures SSTable.EncodeRecord(Entry(Cell([107], 5), Payload(value, deleted, 7))) ==
              BigEndian(1, 4) + BigEndian(|kept|, 4) + [mark] + [0, 0, 0, 0, 0, 0, 0, 7] + [0, 0, 0, 0, 0, 0, 0, 5]
              + [107] + kept
  {
    Small8(5);
    Small8(7);
  }

  /** The end of a block: one restart offset, their number, and the magic number "RSTP". */
  lemma BlockTrailer(data: Bytes)
    ensures SSTable.EncodeBlock(data, [0]) == data + [0, 0, 0, 0] + [0, 0, 0, 1] + [82, 83, 84, 80]
  {
    Small4(0);
    Small4(1);
    assert BigEndian(0x52535450, 4) == [82, 83, 84, 80] by {
      assert BigEndian(0x52, 1) == BigEndian(0, 0) + [82] && BigEndian(0x5253, 2) == BigEndian(0x52, 1) + [83];
      assert BigEndian(0x525354, 3) == BigEndian(0x5253, 2) + [84];
    }
    var one: seq<nat> := [0];
    assert one[..0] == [];
    assert SSTable.EncodeOffsets(one) == SSTable.EncodeOffsets([]) + BigEndian(0, 4);
  }

  /** A log record without checksum and data: operation, lengths, expiry, version, timestamp. */
  lemma LogHeader()
    ensures Wal.Fields(Wal.Record(1, [107], [118], 7, 5, 9)) ==
              [1] + [0, 0, 0, 1] + [0, 0, 0, 1] + [0, 0, 0, 0, 0, 0, 0, 7] + [0, 0, 0, 0, 0, 0, 0, 5]
              + [0, 0, 0, 0, 0, 0, 0, 9]
  {
    Small4(1);
    Small8(5);
    Small8(7);
    Small8(9);
  }

  /** The operations of log records: 1 for a put, 2 for a deletion. */
  lemma LogOperations(k: Key, v: Bytes, expiresAt: int, version: nat, ts: int)
    ensures Replay.Logged(Replay.Put(k, v, expiresAt), |v| + 1, ValueLog.Ptr(0, 0, 0), version, ts) ==
              Wal.Record(1, k, v, expiresAt, version, ts)
    ensures Replay.Logged(Replay.Delete(k), 0, ValueLog.Ptr(0, 0, 0), version, ts) ==
              Wal.Record(2, k, [], 0, version, ts)
  {}

  /** Pointers to the value log: 1 in a table, "VLPT" in the log; then segment, offset and size. */
  lemma Pointers()
    ensures ValueLog.EncodePointer(ValueLog.Ptr(1, 2, 3)) ==
              [1] + [0, 0, 0, 1] + [0, 0, 0, 0, 0, 0, 0, 2] + [0, 0, 0, 3]
    ensures Replay.EncodeWalPointer(ValueLog.Ptr(1, 2, 3)) ==
              [86, 76, 80, 84] + [0, 0, 0, 1] + [0, 0, 0, 0, 0, 0, 0, 2] + [0, 0, 0, 3]
    ensures ValueLog.EncodeInline([118]) == [0, 118]
  {
    Small4(1);
    Small4(3);
    Small8(2);
  }

  /** The keys of a sorted set and of a bitmap. */
  lemma Keys(name: Bytes, member: Bytes, enc: Bytes)
    ensures SortedSet.ValKey(name, member) == [122, 0] + name + [0, 118, 0] + member
    ensures SortedSet.ScoreKey(name, enc, member) == [122, 0] + name + [0, 115, 0] + enc + [0] + member
    ensures Bitmap.PageKey(name, 3) == [98, 0] + name + [0, 0, 0, 0, 0, 0, 0, 0, 3]
  {
    Small8(3);
  }

  /** The score 1.0 and its key. */
  lemma ScoreOne()
    ensures Score.EncodeScore(0x3FF0_0000_0000_0000) == [191, 240, 0, 0, 0, 0, 0, 0]
  {
    Score.ZeroPatterns(0x3FF0_0000_0000_0000);
    assert Score.SortKey(0x3FF0_0000_0000_0000) == 0xBFF0_0000_0000_0000;
    assert BigEndian(0xBF, 1) == BigEndian(0, 0) + [191];
    assert BigEndian(0xBFF0, 2) == BigEndian(0xBF, 1) + [240];
    assert BigEndian(0xBFF0_00, 3) == BigEndian(0xBFF0, 2) + [0];
    assert BigEndian(0xBFF0_0000, 4) == BigEndian(0xBFF0_00, 3) + [0];
    assert BigEndian(0xBFF0_0000_00, 5) == BigEndian(0xBFF0_0000, 4) + [0];
    assert BigEndian(0xBFF0_0000_0000, 6) == BigEndian(0xBFF0_0000_00, 5) + [0];
    assert BigEndian(0xBFF0_0000_0000_00, 7) == BigEndian(0xBFF0_0000_0000, 6) + [0];
  }
}
