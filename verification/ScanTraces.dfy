/** What the pages of a whole scan leave out, step by step: exactly the names all of whose live keys are
    shadowed by rows that the scan has met. */
module ScanTraces {
  import opened Store
  import opened ByteOrder
  import opened Scan

  // ---------------------------------------------------------------- the steps of a scan

  /** One turn of the page loop. */
  ghost predicate StepsTo(rows: seq<Row>, pattern: Bytes, s: Progress, t: Progress) {
    s.pos < |rows| && t == if IsNew(rows, s) then Meet(rows, pattern, s) else Pass(s)
  }

  /** Every state follows from the one before it by a turn, or begins the next page where it ended. */
  ghost predicate Linked(rows: seq<Row>, pattern: Bytes, ss: seq<Progress>) {
    forall k :: 0 < k < |ss| ==> Follows(rows, pattern, ss[k - 1], ss[k])
  }

  ghost predicate Follows(rows: seq<Row>, pattern: Bytes, s: Progress, t: Progress) {
    StepsTo(rows, pattern, s, t) || t == StartAt(s.pos)
  }

  /** The states that a page goes through. */
  ghost function PageTrace(rows: seq<Row>, pattern: Bytes, count: nat, s: Progress): seq<Progress>
    decreases |AllNames(rows) - s.seen|, |rows| - s.pos
  {
    if s.pos >= |rows| then [s]
    else if IsNew(rows, s) then
      var t := Meet(rows, pattern, s);
      FewerLeft(AllNames(rows), s.seen, LogicalKey(rows[s.pos].key));
      [s] + if Composite(rows[s.pos].key) || !Full(t, count) then PageTrace(rows, pattern, count, t) else [t]
    else if Full(Pass(s), count) then [s, Pass(s)]
    else [s] + PageTrace(rows, pattern, count, Pass(s))
  }

  /** The states that a client's first `m` pages go through. */
  ghost function Trace(rows: seq<Row>, pattern: Bytes, count: nat, m: nat): seq<Progress> {
    if m == 0 then [StartAt(0)]
    else
      var at, ss := After(rows, pattern, count, m - 1), Trace(rows, pattern, count, m - 1);
      if at >= |rows| then ss else ss + PageTrace(rows, pattern, count, StartAt(at))
  }

  lemma LinkedSnoc(rows: seq<Row>, pattern: Bytes, s: Progress, ss: seq<Progress>)
    requires Linked(rows, pattern, ss) && |ss| > 0 && Follows(rows, pattern, s, ss[0])
    ensures Linked(rows, pattern, [s] + ss)
  {
    var all := [s] + ss;
    forall k | 0 < k < |all| ensures Follows(rows, pattern, all[k - 1], all[k]) {
      if k > 1 { assert all[k - 1] == ss[k - 2] && all[k] == ss[k - 1]; }
    }
  }

  /** `ss` leads from `s` to `end` and names nothing that `end` does not. */
  ghost predicate Leads(rows: seq<Row>, pattern: Bytes, s: Progress, ss: seq<Progress>, end: Progress) {
    && |ss| > 0 && ss[0] == s && ss[|ss| - 1] == end && Linked(rows, pattern, ss)
    && forall t :: t in ss ==> t.names <= end.names
  }

  lemma LeadsSnoc(rows: seq<Row>, pattern: Bytes, s: Progress, t: Progress, ss: seq<Progress>, end: Progress)
    requires StepsTo(rows, pattern, s, t) && Leads(rows, pattern, t, ss, end)
    ensures Leads(rows, pattern, s, [s] + ss, end)
  {
    LinkedSnoc(rows, pattern, s, ss);
    assert t in ss && s.names <= t.names;
  }

  lemma {:induction false} PageLinked(rows: seq<Row>, pattern: Bytes, count: nat, s: Progress)
    ensures Leads(rows, pattern, s, PageTrace(rows, pattern, count, s), Page(rows, pattern, count, s))
    decreases |AllNames(rows) - s.seen|, |rows| - s.pos
  {
    if s.pos < |rows| {
      var t := if IsNew(rows, s) then Meet(rows, pattern, s) else Pass(s);
      if IsNew(rows, s) { FewerLeft(AllNames(rows), s.seen, LogicalKey(rows[s.pos].key)); }
      if (IsNew(rows, s) && Composite(rows[s.pos].key)) || !Full(t, count) {
        PageLinked(rows, pattern, count, t);
        LeadsSnoc(rows, pattern, s, t, PageTrace(rows, pattern, count, t), Page(rows, pattern, count, t));
        assert PageTrace(rows, pattern, count, s) == [s] + PageTrace(rows, pattern, count, t);
      } else {
        LeadsSnoc(rows, pattern, s, t, [t], t);
        assert PageTrace(rows, pattern, count, s) == [s] + [t];
      }
    }
  }

  lemma LinkedJoin(rows: seq<Row>, pattern: Bytes, a: seq<Progress>, b: seq<Progress>)
    requires Linked(rows, pattern, a) && Linked(rows, pattern, b) && |a| > 0 && |b| > 0
    requires Follows(rows, pattern, a[|a| - 1], b[0])
    ensures Linked(rows, pattern, a + b)
  {
    var all := a + b;
    forall k | 0 < k < |all| ensures Follows(rows, pattern, all[k - 1], all[k]) {
      if k < |a| { assert all[k - 1] == a[k - 1] && all[k] == a[k]; }
      else if k > |a| { assert all[k - 1] == b[k - |a| - 1] && all[k] == b[k - |a|]; }
    }
  }

  ghost predicate IsTrace(rows: seq<Row>, pattern: Bytes, ss: seq<Progress>, at: nat) {
    |ss| > 0 && ss[0] == StartAt(0) && ss[|ss| - 1].pos == at && Linked(rows, pattern, ss)
  }

  ghost predicate Tells(ss: seq<Progress>, n: Bytes) {
    exists k :: 0 <= k < |ss| && n in ss[k].names
  }

  /** `ss` is a trace that ends at `at` and tells `n` if it is in `names`. */
  ghost predicate Records(rows: seq<Row>, pattern: Bytes, ss: seq<Progress>, at: nat, names: set<Bytes>, n: Bytes) {
    IsTrace(rows, pattern, ss, at) && (Tells(ss, n) <==> n in names)
  }

  datatype Lens = Lens

  ghost predicate RecordsAfter(lens: Lens, rows: seq<Row>, pattern: Bytes, count: nat, m: nat, n: Bytes) {
    Records(rows, pattern, Trace(rows, pattern, count, m), After(rows, pattern, count, m),
        NamesOf(rows, pattern, count, m), n)
  }

  /** The quantifier keeps what the pages do out of the induction over them. */
  ghost predicate Recorded(rows: seq<Row>, pattern: Bytes, count: nat, m: nat, n: Bytes) {
    forall lens: Lens :: RecordsAfter(lens, rows, pattern, count, m, n)
  }

  lemma {:induction false} TraceIs(rows: seq<Row>, pattern: Bytes, count: nat, m: nat, n: Bytes)
    ensures Recorded(rows, pattern, count, m, n)
  {
    if m == 0 {
      assert !Tells([StartAt(0)], n);
    } else {
      TraceIs(rows, pattern, count, m - 1, n);
      NextRecords(rows, pattern, count, m - 1, n);
    }
  }

  lemma NextRecords(rows: seq<Row>, pattern: Bytes, count: nat, m: nat, n: Bytes)
    requires Recorded(rows, pattern, count, m, n)
    ensures Recorded(rows, pattern, count, m + 1, n)
  {
    assert RecordsAfter(Lens, rows, pattern, count, m, n);
    var ss, at := Trace(rows, pattern, count, m), After(rows, pattern, count, m);
    var names := NamesOf(rows, pattern, count, m);
    var page, end := PageTrace(rows, pattern, count, StartAt(at)), Page(rows, pattern, count, StartAt(at));
    OnePageMore(rows, pattern, count, m, ss, at, names, page, end);
    PageLinked(rows, pattern, count, StartAt(at));
    PageAdds(rows, pattern, ss, at, names, page, end, n);
  }

  lemma OnePageMore(rows: seq<Row>, pattern: Bytes, count: nat, m: nat, ss: seq<Progress>, at: nat,
      names: set<Bytes>, page: seq<Progress>, end: Progress)
    requires ss == Trace(rows, pattern, count, m) && at == After(rows, pattern, count, m)
    requires names == NamesOf(rows, pattern, count, m)
    requires page == PageTrace(rows, pattern, count, StartAt(at)) && end == Page(rows, pattern, count, StartAt(at))
    ensures Trace(rows, pattern, count, m + 1) == if at >= |rows| then ss else ss + page
    ensures After(rows, pattern, count, m + 1) == if at >= |rows| then at else end.pos
    ensures NamesOf(rows, pattern, count, m + 1) == if at >= |rows| then names else names + end.names
  {}

  lemma PageAdds(rows: seq<Row>, pattern: Bytes, ss: seq<Progress>, at: nat, names: set<Bytes>, page: seq<Progress>,
      end: Progress, n: Bytes)
    requires Records(rows, pattern, ss, at, names, n) && Leads(rows, pattern, StartAt(at), page, end)
    ensures Records(rows, pattern, ss + page, end.pos, names + end.names, n)
  {
    LinkedJoin(rows, pattern, ss, page);
    TellsJoin(ss, page, end, n);
  }

  lemma TellsJoin(a: seq<Progress>, b: seq<Progress>, last: Progress, n: Bytes)
    requires |b| > 0 && b[|b| - 1] == last && forall t :: t in b ==> t.names <= last.names
    ensures Tells(a + b, n) <==> Tells(a, n) || n in last.names
  {
    var all := a + b;
    if Tells(a, n) {
      var k :| 0 <= k < |a| && n in a[k].names;
      assert all[k] == a[k];
    }
    if n in last.names { assert all[|all| - 1] == last; }
    if Tells(all, n) {
      var k :| 0 <= k < |all| && n in all[k].names;
      if k < |a| { assert a[k] == all[k]; } else { assert b[k - |a|] == all[k] && all[k] in b; }
    }
  }

  // ---------------------------------------------------------------- what the steps deal with

  /** Step `k` looks at row `i`. */
  ghost predicate Visits(rows: seq<Row>, pattern: Bytes, ss: seq<Progress>, k: nat, i: nat) {
    k + 1 < |ss| && StepsTo(rows, pattern, ss[k], ss[k + 1]) && ss[k].pos == i
  }

  /** Step `k` meets a name and seeks past row `i`. */
  ghost predicate Jumps(rows: seq<Row>, pattern: Bytes, ss: seq<Progress>, k: nat, i: nat) {
    && k + 1 < |ss| && StepsTo(rows, pattern, ss[k], ss[k + 1])
    && IsNew(rows, ss[k]) && ss[k].pos < i < ss[k + 1].pos
  }

  /** Step `k` meets a string that shadows row `i`. */
  ghost predicate Hides(rows: seq<Row>, pattern: Bytes, ss: seq<Progress>, k: nat, i: nat) {
    && k + 1 < |ss| && StepsTo(rows, pattern, ss[k], ss[k + 1]) && IsNew(rows, ss[k])
    && ss[k].pos < i < |rows| && Shadows(rows[ss[k].pos].key, rows[i].key)
  }

  /** The rows in front of a state have been looked at or jumped over. */
  lemma {:induction false} DealtWith(rows: seq<Row>, pattern: Bytes, ss: seq<Progress>, k: nat, i: nat) returns (q: nat)
    requires |ss| > 0 && ss[0] == StartAt(0) && Linked(rows, pattern, ss) && k < |ss| && i < ss[k].pos && i < |rows|
    ensures Visits(rows, pattern, ss, q, i) || Jumps(rows, pattern, ss, q, i)
  {
    assert Follows(rows, pattern, ss[k - 1], ss[k]);
    if i < ss[k - 1].pos { q := DealtWith(rows, pattern, ss, k - 1, i); } else { q := k - 1; }
  }

  lemma {:induction false} AllPick(rows: seq<Row>, pattern: Bytes, ss: seq<Progress>, k: nat)
    requires |ss| > 0 && ss[0] == StartAt(0) && Linked(rows, pattern, ss) && k < |ss|
    ensures Picks(pattern, ss[k].seen, ss[k].names)
  {
    if k > 0 {
      AllPick(rows, pattern, ss, k - 1);
      var s, t := ss[k - 1], ss[k];
      assert Follows(rows, pattern, s, t);
      if StepsTo(rows, pattern, s, t) && IsNew(rows, s) {
        MeetPicks(pattern, s.seen, s.names, LogicalKey(rows[s.pos].key));
      } else if t == StartAt(s.pos) {
        forall n ensures PicksAt(pattern, t.seen, t.names, n) {}
      }
    } else {
      forall n ensures PicksAt(pattern, ss[0].seen, ss[0].names, n) {}
    }
  }

  /** A name that a page has met is that of a row it has looked at. */
  lemma {:induction false} SeenFrom(rows: seq<Row>, pattern: Bytes, ss: seq<Progress>, k: nat, n: Bytes)
    returns (q: nat)
    requires |ss| > 0 && ss[0] == StartAt(0) && Linked(rows, pattern, ss) && k < |ss| && n in ss[k].seen
    ensures q + 1 < |ss| && ss[q].pos < |rows| && Visits(rows, pattern, ss, q, ss[q].pos)
    ensures Named(rows, 0, |rows|, ss[q].pos, n)
  {
    assert Follows(rows, pattern, ss[k - 1], ss[k]);
    if n in ss[k - 1].seen { q := SeenFrom(rows, pattern, ss, k - 1, n); } else { q := k - 1; }
  }

  /** A name that is met and wanted is told. */
  lemma SeenIsTold(rows: seq<Row>, pattern: Bytes, ss: seq<Progress>, k: nat, n: Bytes)
    requires |ss| > 0 && ss[0] == StartAt(0) && Linked(rows, pattern, ss) && k < |ss| && n in ss[k].seen
    requires Wanted(pattern, n)
    ensures Tells(ss, n)
  {
    AllPick(rows, pattern, ss, k);
    assert PicksAt(pattern, ss[k].seen, ss[k].names, n);
  }

  // ---------------------------------------------------------------- never back over a row that is not high

  lemma StepNotBack(rows: seq<Row>, pattern: Bytes, s: Progress, t: Progress, i: nat)
    requires Ascending(rows) && Follows(rows, pattern, s, t) && i < |rows| && i <= s.pos && !High(rows[i].key)
    ensures i <= t.pos && (i < s.pos ==> i < t.pos)
  {
    if StepsTo(rows, pattern, s, t) && IsNew(rows, s) && Composite(rows[s.pos].key) && t.pos < s.pos {
      var k := rows[s.pos].key;
      var q := if i < s.pos then i else t.pos;
      SeekSplits(rows, ResumeKey(k), q);
      if !Lt(rows[q].key, ResumeKey(k)) { BackIsHigh(k, rows[q].key); }
    }
  }

  lemma {:induction false} NotBack(rows: seq<Row>, pattern: Bytes, ss: seq<Progress>, q: nat, k: nat, i: nat)
    requires Ascending(rows) && Linked(rows, pattern, ss) && q <= k < |ss|
    requires i < |rows| && i <= ss[q].pos && !High(rows[i].key)
    ensures i <= ss[k].pos && (i < ss[q].pos ==> i < ss[k].pos)
  {
    if q < k {
      NotBack(rows, pattern, ss, q, k - 1, i);
      assert Follows(rows, pattern, ss[k - 1], ss[k]);
      StepNotBack(rows, pattern, ss[k - 1], ss[k], i);
    }
  }

  lemma ShadowedNotHigh(k: Key, x: Key)
    requires Shadows(k, x)
    ensures !High(x)
  {
    SameStem(k, x);
  }

  /** A row that a met row shadows is not looked at, before or after. */
  lemma HiddenNotVisited(rows: seq<Row>, pattern: Bytes, ss: seq<Progress>, k: nat, q: nat, i: nat)
    requires Ascending(rows) && Linked(rows, pattern, ss) && Hides(rows, pattern, ss, k, i)
    ensures !Visits(rows, pattern, ss, q, i)
  {
    var x := rows[ss[k].pos].key;
    ShadowedNotHigh(x, rows[i].key);
    SeekOverShadows(x, rows[i].key);
    SeekSplits(rows, ResumeKey(x), i);
    if Visits(rows, pattern, ss, q, i) {
      if k < q { NotBack(rows, pattern, ss, k + 1, q, i); } else { NotBack(rows, pattern, ss, q, k, i); }
    }
  }

  // ---------------------------------------------------------------- exactly the names left out

  /** Every live key of `n` is shadowed by a row that was met. */
  ghost predicate Hidden(rows: seq<Row>, pattern: Bytes, ss: seq<Progress>, n: Bytes) {
    forall i: nat :: Named(rows, 0, |rows|, i, n) ==> exists k: nat :: Hides(rows, pattern, ss, k, i)
  }

  lemma HiddenIsNotTold(rows: seq<Row>, pattern: Bytes, ss: seq<Progress>, n: Bytes)
    requires Ascending(rows) && |ss| > 0 && ss[0] == StartAt(0) && Linked(rows, pattern, ss)
    requires Hidden(rows, pattern, ss, n)
    ensures !Tells(ss, n)
  {
    if Tells(ss, n) {
      var j :| 0 <= j < |ss| && n in ss[j].names;
      AllPick(rows, pattern, ss, j);
      assert PicksAt(pattern, ss[j].seen, ss[j].names, n);
      var q := SeenFrom(rows, pattern, ss, j, n);
      var k: nat :| Hides(rows, pattern, ss, k, ss[q].pos);
      HiddenNotVisited(rows, pattern, ss, k, q, ss[q].pos);
    }
  }

  /** A live row that no met row shadows gets its name told. */
  lemma ShownIsTold(rows: seq<Row>, pattern: Bytes, ss: seq<Progress>, i: nat, n: Bytes)
    requires Ascending(rows) && |ss| > 0 && IsTrace(rows, pattern, ss, ss[|ss| - 1].pos) && ss[|ss| - 1].pos >= |rows|
    requires Named(rows, 0, |rows|, i, n) && Wanted(pattern, n)
    requires forall k: nat :: !Hides(rows, pattern, ss, k, i)
    ensures Tells(ss, n)
  {
    var q := DealtWith(rows, pattern, ss, |ss| - 1, i);
    assert n in ss[q + 1].seen by {
      if !Visits(rows, pattern, ss, q, i) {
        assert !Hides(rows, pattern, ss, q, i);
        JumpedIsKnown(rows, pattern, ss[q], i);
      }
    }
    SeenIsTold(rows, pattern, ss, q + 1, n);
  }

  lemma JumpedIsKnown(rows: seq<Row>, pattern: Bytes, s: Progress, i: nat)
    requires Ascending(rows) && IsNew(rows, s) && s.pos < i < Meet(rows, pattern, s).pos && i < |rows|
    requires !Shadows(rows[s.pos].key, rows[i].key)
    ensures LogicalKey(rows[i].key) == LogicalKey(rows[s.pos].key)
  {
    var k, x := rows[s.pos].key, rows[i].key;
    SeekSplits(rows, ResumeKey(k), i);
    SkippedSameName(k, x);
  }

  /** A client that has come back to cursor 0 has not been told a wanted name with a live key if and only if
      every live key of that name is shadowed by a row that was met. */
  lemma OmitsIff(rows: seq<Row>, pattern: Bytes, count: nat, m: nat, n: Bytes)
    requires Ascending(rows) && After(rows, pattern, count, m) >= |rows|
    requires HasName(rows, 0, |rows|, n) && Wanted(pattern, n)
    ensures n !in NamesOf(rows, pattern, count, m) <==> Hidden(rows, pattern, Trace(rows, pattern, count, m), n)
  {
    var ss := Trace(rows, pattern, count, m);
    TraceIs(rows, pattern, count, m, n);
    assert RecordsAfter(Lens, rows, pattern, count, m, n);
    if Hidden(rows, pattern, ss, n) {
      HiddenIsNotTold(rows, pattern, ss, n);
    } else {
      var i: nat :| Named(rows, 0, |rows|, i, n) && forall k: nat :: !Hides(rows, pattern, ss, k, i);
      ShownIsTold(rows, pattern, ss, i, n);
    }
  }
}
