/** How long a page of SCAN is. */
module ScanCounts {
  import opened Store
  import opened ByteOrder
  import opened Glob
  import opened Scan

  /** A page ends at the last row, or with `count` names, or having looked at four times as many rows, which is
      taken to be at least 64 and at most 8192. */
  lemma {:induction false} PageEndsFull(rows: seq<Row>, pattern: Bytes, count: nat, s: Progress)
    ensures var end := Page(rows, pattern, count, s);
            || end.pos >= |rows| || |end.names| >= count
            || (end.scanned >= 4 * count && end.scanned >= 64) || end.scanned >= 8192
    decreases |AllNames(rows) - s.seen|, |rows| - s.pos
  {
    if s.pos < |rows| {
      PageStep(rows, pattern, count, s);
      if IsNew(rows, s) {
        FewerLeft(AllNames(rows), s.seen, LogicalKey(rows[s.pos].key));
        PageEndsFull(rows, pattern, count, Meet(rows, pattern, s));
      } else {
        PageEndsFull(rows, pattern, count, Pass(s));
      }
    }
  }

  /** Without composite keys every row that a page looks at is counted, and it keeps to that limit. */
  lemma {:induction false} PageCountsRows(rows: seq<Row>, pattern: Bytes, count: nat, s: Progress)
    requires forall i :: 0 <= i < |rows| ==> !Composite(rows[i].key)
    requires s.scanned < Budget(count)
    ensures var end := Page(rows, pattern, count, s);
            && end.pos - s.pos == end.scanned - s.scanned
            && (end.scanned <= 4 * count || end.scanned <= 64) && end.scanned <= 8192
    decreases |AllNames(rows) - s.seen|, |rows| - s.pos
  {
    if s.pos < |rows| {
      PageStep(rows, pattern, count, s);
      if IsNew(rows, s) {
        FewerLeft(AllNames(rows), s.seen, LogicalKey(rows[s.pos].key));
        if !Full(Meet(rows, pattern, s), count) { PageCountsRows(rows, pattern, count, Meet(rows, pattern, s)); }
      } else if !Full(Pass(s), count) {
        PageCountsRows(rows, pattern, count, Pass(s));
      }
    }
  }

  // ---------------------------------------------------------------- when a page keeps to its count

  /** The seek past the collection of row `i` lands on row `j`, which is live and has another name. */
  ghost predicate RunsOn(rows: seq<Row>, i: nat, j: nat) {
    && i < |rows| && rows[i].live && Composite(rows[i].key) && LogicalKey(rows[i].key) != []
    && j == SeekTo(rows, ResumeKey(rows[i].key)) < |rows|
    && rows[j].live && LogicalKey(rows[j].key) != [] && LogicalKey(rows[j].key) != LogicalKey(rows[i].key)
  }

  ghost predicate NeverRunsOn(rows: seq<Row>) {
    forall i: nat, j: nat :: !RunsOn(rows, i, j)
  }

  ghost predicate KeepsCount(rows: seq<Row>, pattern: Bytes, count: nat, start: nat) {
    |Page(rows, pattern, count, StartAt(start)).names| <= count
  }

  /** No page names more than its count, whatever pattern, count and cursor, if and only if no seek past a
      collection lands on a live row of another name. */
  lemma CountKeptIff(rows: seq<Row>)
    ensures (forall pattern, count: nat, start: nat :: count > 0 ==> KeepsCount(rows, pattern, count, start)) <==>
              NeverRunsOn(rows)
  {
    if NeverRunsOn(rows) {
      forall pattern, count: nat, start: nat | count > 0 ensures KeepsCount(rows, pattern, count, start) {
        StaysWithin(rows, pattern, count, StartAt(start));
      }
    } else {
      var i: nat, j: nat :| RunsOn(rows, i, j);
      OneTooMany(rows, i, j);
      assert !KeepsCount(rows, [STAR], 1, i);
    }
  }

  /** Once it has all its names a page is not at a row with a new one. */
  ghost predicate Ready(rows: seq<Row>, count: nat, s: Progress) {
    |s.names| <= count && (|s.names| == count ==> !IsNew(rows, s))
  }

  lemma {:induction false} StaysWithin(rows: seq<Row>, pattern: Bytes, count: nat, s: Progress)
    requires NeverRunsOn(rows) && Ready(rows, count, s)
    ensures |Page(rows, pattern, count, s).names| <= count
    decreases |AllNames(rows) - s.seen|, |rows| - s.pos
  {
    if s.pos < |rows| {
      PageStep(rows, pattern, count, s);
      if IsNew(rows, s) {
        var t := Meet(rows, pattern, s);
        FewerLeft(AllNames(rows), s.seen, LogicalKey(rows[s.pos].key));
        MeetReady(rows, pattern, count, s);
        if Composite(rows[s.pos].key) || !Full(t, count) { StaysWithin(rows, pattern, count, t); }
      } else if !Full(Pass(s), count) {
        StaysWithin(rows, pattern, count, Pass(s));
      }
    }
  }

  lemma MeetReady(rows: seq<Row>, pattern: Bytes, count: nat, s: Progress)
    requires NeverRunsOn(rows) && Ready(rows, count, s) && IsNew(rows, s)
    ensures |Meet(rows, pattern, s).names| <= count
    ensures Composite(rows[s.pos].key) || !Full(Meet(rows, pattern, s), count) ==>
              Ready(rows, count, Meet(rows, pattern, s))
  {
    var t := Meet(rows, pattern, s);
    var n := LogicalKey(rows[s.pos].key);
    assert |s.names + {n}| <= |s.names| + 1;
    if Composite(rows[s.pos].key) && t.pos < |rows| { assert !RunsOn(rows, s.pos, t.pos); }
  }

  lemma OneTooMany(rows: seq<Row>, i: nat, j: nat)
    requires RunsOn(rows, i, j)
    ensures |Page(rows, [STAR], 1, StartAt(i)).names| > 1
  {
    var s := StartAt(i);
    var t := Meet(rows, [STAR], s);
    var m, n := LogicalKey(rows[i].key), LogicalKey(rows[j].key);
    StarWants(m);
    StarWants(n);
    PageStep(rows, [STAR], 1, s);
    assert t.names == {m} && t.pos == j && IsNew(rows, t);
    PageStep(rows, [STAR], 1, t);
    var u := Meet(rows, [STAR], t);
    assert u.names == {m, n};
    NamesGrow(rows, [STAR], 1, u);
    assert {m, n} <= Page(rows, [STAR], 1, s).names;
    AtLeastTwo(Page(rows, [STAR], 1, s).names, m, n);
  }

  lemma AtLeastTwo(a: set<Bytes>, m: Bytes, n: Bytes)
    requires m in a && n in a && m != n
    ensures |a| > 1
  {
    assert n in a - {m};
    assert |a - {m}| == |a| - 1;
  }

  lemma {:induction false} NamesGrow(rows: seq<Row>, pattern: Bytes, count: nat, s: Progress)
    ensures s.names <= Page(rows, pattern, count, s).names
    decreases |AllNames(rows) - s.seen|, |rows| - s.pos
  {
    if s.pos < |rows| {
      PageStep(rows, pattern, count, s);
      if IsNew(rows, s) {
        FewerLeft(AllNames(rows), s.seen, LogicalKey(rows[s.pos].key));
        NamesGrow(rows, pattern, count, Meet(rows, pattern, s));
      } else {
        NamesGrow(rows, pattern, count, Pass(s));
      }
    }
  }

  /** Two hashes of one field each: a page of one name has both. */
  lemma CountIgnored()
    ensures var rows := [Row([104, 0, 97, 0, 102], true), Row([104, 0, 98, 0, 102], true)];
            Ascending(rows) && Page(rows, [STAR], 1, StartAt(0)).names == {[97], [98]}
  {
    var a: Key, b: Key := [104, 0, 97, 0, 102], [104, 0, 98, 0, 102];
    var rows := [Row(a, true), Row(b, true)];
    var p: Bytes := [104, 0];
    var r: Bytes := [104, 0, 97, 0, 255];
    HashName(a, 97);
    HashName(b, 98);
    StarWants([97]);
    StarWants([98]);
    OneByteLess();
    var s := StartAt(0);
    SeekSplits(rows, r, 0);
    SeekSplits(rows, r, 1);
    PageStep(rows, [STAR], 1, s);
    var t := Meet(rows, [STAR], s);
    assert t.pos == 1 && t.names == {[97]};
    PageStep(rows, [STAR], 1, t);
    var u := Meet(rows, [STAR], t);
    assert u.names == {[97], [98]} && u.seen == {[97], [98]};
    AllSeen(rows, u);
  }

  lemma HashName(k: Key, c: Byte)
    requires k == [104, 0, c, 0, 102] && c != 0
    ensures LogicalKey(k) == [c] && Composite(k) && ResumeKey(k) == [104, 0, c, 0, 255]
  {
    assert k[2..] == [c, 0, 102] && k[2..][1..] == [0, 102];
    assert IndexNul(k[2..]) == 1;
    assert k[2..3] == [c];
  }

  lemma OneByteLess()
    ensures Lt([104, 0, 97, 0, 102], [104, 0, 98, 0, 102]) && Lt([104, 0, 97, 0, 102], [104, 0, 97, 0, 255])
    ensures !Lt([104, 0, 98, 0, 102], [104, 0, 97, 0, 255])
  {
    var p, q: Bytes := [104, 0], [104, 0, 97, 0];
    LtAfter(p, [97, 0, 102], [98, 0, 102]);
    assert p + [97, 0, 102] == [104, 0, 97, 0, 102] && p + [98, 0, 102] == [104, 0, 98, 0, 102];
    OneByte(102, 255);
    LtAfter(q, [102], [255]);
    assert q + [102] == [104, 0, 97, 0, 102] && q + [255] == [104, 0, 97, 0, 255];
    LtAfter(p, [97, 0, 255], [98, 0, 102]);
    assert p + [97, 0, 255] == [104, 0, 97, 0, 255];
    LtAsym([104, 0, 97, 0, 255], [104, 0, 98, 0, 102]);
  }

  /** When every name has been met a page adds none. */
  lemma {:induction false} AllSeen(rows: seq<Row>, s: Progress)
    requires forall i :: 0 <= i < |rows| ==> LogicalKey(rows[i].key) in s.seen
    ensures Page(rows, [STAR], 1, s).names == s.names
    decreases |rows| - s.pos
  {
    if s.pos < |rows| {
      PageStep(rows, [STAR], 1, s);
      AllSeen(rows, Pass(s));
    }
  }
}
