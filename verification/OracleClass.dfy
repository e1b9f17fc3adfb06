/** The oracle and its reader watermark as mutable objects. The specification they are held to
    is `OracleSpec`, which knows neither the fingerprint index nor the cached minimum. */
module OracleClass {
  import opened Store
  import opened OracleSpec

  lemma OnlyKey(m: map<nat, nat>, k: nat)
    requires |m| == 1 && k in m
    ensures m.Keys == {k}
  {
    assert |m.Keys| == |m|;
    assert |m.Keys - {k}| == 0;
  }

  method Smallest(active: map<nat, nat>) returns (m: nat)
    requires |active| != 0
    ensures m in active && forall r :: r in active ==> m <= r
  {
    var min: Option<nat> := None;
    var todo := active.Keys;
    while todo != {}
      invariant todo <= active.Keys
      invariant min.None? ==> todo == active.Keys
      invariant min.Some? ==> min.value in active && forall r :: r in active && r !in todo ==> min.value <= r
    {
      var ts :| ts in todo;
      todo := todo - {ts};
      if min.None? || ts < min.value { min := Some(ts); }
    }
    m := min.value;
  }

  /** `active` is `readers` as positive counts. */
  ghost predicate Counts(active: map<nat, nat>, readers: multiset<nat>) {
    && (forall r :: r in active ==> active[r] > 0 && readers[r] == active[r])
    && (forall r :: r in readers ==> r in active)
  }

  function CountDown(active: map<nat, nat>, r: nat): map<nat, nat> {
    if r !in active || active[r] <= 1 then active - {r} else active[r := active[r] - 1]
  }

  lemma CountsDown(active: map<nat, nat>, readers: multiset<nat>, r: nat)
    requires Counts(active, readers)
    ensures Counts(CountDown(active, r), readers - multiset{r})
  {}

  lemma CountsUp(active: map<nat, nat>, readers: multiset<nat>, r: nat)
    requires Counts(active, readers)
    ensures Counts(active[r := (if r in active then active[r] else 0) + 1], readers + multiset{r})
  {}

  class WaterMark {
    var active: map<nat, nat>
    var minTs: nat
    /** Every snapshot in use, as often as it is in use. */
    ghost var readers: multiset<nat>

    ghost predicate Valid()
      reads this
    {
      && Counts(active, readers)
      && (active != map[] ==> minTs in active && forall r :: r in active ==> minTs <= r)
    }

    constructor ()
      ensures Valid() && readers == multiset{}
    {
      active, minTs, readers := map[], 0, multiset{};
    }

    method Begin(readTs: nat)
      requires Valid()
      modifies this
      ensures Valid() && readers == old(readers) + multiset{readTs}
    {
      CountsUp(active, readers, readTs);
      active := active[readTs := (if readTs in active then active[readTs] else 0) + 1];
      if |active| == 1 || readTs < minTs {
        minTs := readTs;
      }
      readers := readers + multiset{readTs};
      if |active| == 1 { OnlyKey(active, readTs); }
    }

    method Done(readTs: nat, currentTs: nat)
      requires Valid()
      modifies this
      ensures Valid() && readers == old(readers) - multiset{readTs}
    {
      CountsDown(active, readers, readTs);
      active, readers := CountDown(active, readTs), readers - multiset{readTs};
      if |active| == 0 {
        minTs := currentTs;
      } else {
        minTs := Smallest(active);
      }
    }

    method MinReadTs(defaultTs: nat) returns (m: nat)
      requires Valid()
      ensures if readers == multiset{} then m == defaultTs
              else m in readers && forall r :: r in readers ==> m <= r
    {
      if |active| == 0 {
        assert readers == multiset{};
        return defaultTs;
      }
      return minTs;
    }
  }

  // ---------------------------------------------------------------- the fingerprint index

  /** The timestamps at which `fp` was written, oldest first. */
  function Posting(history: seq<Committed>, fp: Fp): seq<nat> {
    if history == [] then []
    else (if fp in history[0].writes then [history[0].commitTs] else []) + Posting(history[1..], fp)
  }

  function ListAt(index: map<Fp, seq<nat>>, fp: Fp): seq<nat> {
    if fp in index then index[fp] else []
  }

  ghost predicate IndexAgrees(history: seq<Committed>, index: map<Fp, seq<nat>>) {
    forall fp: Fp :: ListAt(index, fp) == Posting(history, fp)
  }

  lemma {:induction false} PostingConcat(a: seq<Committed>, b: seq<Committed>, fp: Fp)
    ensures Posting(a + b, fp) == Posting(a, fp) + Posting(b, fp)
  {
    if a == [] {
      assert a + b == b;
    } else {
      assert (a + b)[1..] == a[1..] + b;
      PostingConcat(a[1..], b, fp);
    }
  }

  /** The latest write of `fp` is after `readTs` exactly when some remembered commit says so. */
  lemma {:induction false} PostingMeans(history: seq<Committed>, fp: Fp, ts: nat)
    ensures ts in Posting(history, fp) <==>
              exists i :: 0 <= i < |history| && history[i].commitTs == ts && fp in history[i].writes
  {
    if history != [] {
      PostingMeans(history[1..], fp, ts);
      if exists i :: 0 <= i < |history| && history[i].commitTs == ts && fp in history[i].writes {
        var i :| 0 <= i < |history| && history[i].commitTs == ts && fp in history[i].writes;
        if i > 0 { assert history[1..][i - 1] == history[i]; }
      }
      if exists i :: 0 <= i < |history[1..]| && history[1..][i].commitTs == ts && fp in history[1..][i].writes {
        var i :| 0 <= i < |history[1..]| && history[1..][i].commitTs == ts && fp in history[1..][i].writes;
        assert history[i + 1] == history[1..][i];
      }
    }
  }

  lemma LatestConflicts(history: seq<Committed>, index: map<Fp, seq<nat>>, readTs: nat, fps: set<Fp>)
    requires IndexAgrees(history, index)
    ensures Conflicts(history, readTs, fps) <==> exists fp, ts :: fp in fps && ts in ListAt(index, fp) && ts > readTs
  {
    if Conflicts(history, readTs, fps) {
      var i :| 0 <= i < |history| && history[i].commitTs > readTs && !(history[i].writes !! fps);
      var fp :| fp in history[i].writes && fp in fps;
      PostingMeans(history, fp, history[i].commitTs);
      assert history[i].commitTs in ListAt(index, fp);
    }
    if exists fp, ts :: fp in fps && ts in ListAt(index, fp) && ts > readTs {
      var fp, ts :| fp in fps && ts in ListAt(index, fp) && ts > readTs;
      PostingMeans(history, fp, ts);
      var i :| 0 <= i < |history| && history[i].commitTs == ts && fp in history[i].writes;
      assert !(history[i].writes !! fps);
    }
  }

  /** Removes the first occurrence of `ts`. */
  function Without(list: seq<nat>, ts: nat): seq<nat> {
    if list == [] then []
    else if list[0] == ts then list[1..]
    else [list[0]] + Without(list[1..], ts)
  }

  lemma {:induction false} WithoutAt(list: seq<nat>, ts: nat, i: nat)
    requires i < |list| && list[i] == ts && forall j :: 0 <= j < i ==> list[j] != ts
    ensures Without(list, ts) == list[..i] + list[i + 1..]
  {
    if i > 0 {
      WithoutAt(list[1..], ts, i - 1);
      assert list[1..][..i - 1] == list[1..i];
      assert list[1..][i..] == list[i + 1..];
      assert [list[0]] + list[1..i] == list[..i];
    }
  }

  lemma {:induction false} WithoutAbsent(list: seq<nat>, ts: nat)
    requires ts !in list
    ensures Without(list, ts) == list
  {
    if list != [] { WithoutAbsent(list[1..], ts); }
  }

  /** Unindexing the oldest commit indexes the rest. */
  lemma UnindexedHead(history: seq<Committed>, index: map<Fp, seq<nat>>, index': map<Fp, seq<nat>>)
    requires history != [] && IndexAgrees(history, index)
    requires forall f: Fp :: ListAt(index', f) ==
               if f in history[0].writes then Without(ListAt(index, f), history[0].commitTs) else ListAt(index, f)
    ensures IndexAgrees(history[1..], index')
  {
    forall f: Fp ensures ListAt(index', f) == Posting(history[1..], f) {
      assert ListAt(index, f) == Posting(history, f);
    }
  }

  /** Unindexing any commit indexes the history without it. */
  lemma UnindexedAt(history: seq<Committed>, index: map<Fp, seq<nat>>, index': map<Fp, seq<nat>>, i: nat)
    requires i < |history| && Increasing(history) && IndexAgrees(history, index)
    requires forall f: Fp :: ListAt(index', f) ==
               if f in history[i].writes then Without(ListAt(index, f), history[i].commitTs) else ListAt(index, f)
    ensures IndexAgrees(Forget(history, history[i].commitTs), index')
  {
    var ts := history[i].commitTs;
    forall f: Fp ensures ListAt(index', f) == Posting(Forget(history, ts), f) {
      assert ListAt(index, f) == Posting(history, f);
      PostingForget(history, ts, f);
      if f !in history[i].writes {
        PostingMeans(history, f, ts);
        WithoutAbsent(Posting(history, f), ts);
      }
    }
  }

  /** Forgetting a commit takes its timestamp off the posting of each key it wrote. */
  lemma {:induction false} PostingForget(history: seq<Committed>, ts: nat, fp: Fp)
    requires Increasing(history)
    ensures Posting(Forget(history, ts), fp) == Without(Posting(history, fp), ts)
  {
    if history != [] {
      if history[0].commitTs == ts {
        if fp !in history[0].writes {
          forall i | 0 <= i < |history[1..]| ensures history[1..][i].commitTs != ts {
            assert history[1..][i] == history[i + 1];
          }
          PostingMeans(history[1..], fp, ts);
          WithoutAbsent(Posting(history[1..], fp), ts);
          assert Posting(history, fp) == Posting(history[1..], fp);
        }
      } else {
        PostingForget(history[1..], ts, fp);
        assert ([history[0]] + Forget(history[1..], ts))[1..] == Forget(history[1..], ts);
        var rest := Posting(history[1..], fp);
        if fp in history[0].writes { assert ([history[0].commitTs] + rest)[1..] == rest; }
        else { assert Posting(history, fp) == rest; }
      }
    }
  }

  lemma {:induction false} ForgetAt(history: seq<Committed>, ts: nat, i: nat)
    requires i < |history| && history[i].commitTs == ts && forall j :: 0 <= j < i ==> history[j].commitTs != ts
    ensures Forget(history, ts) == history[..i] + history[i + 1..]
  {
    if i > 0 {
      ForgetAt(history[1..], ts, i - 1);
      assert history[1..][..i - 1] == history[1..i];
      assert history[1..][i..] == history[i + 1..];
      assert [history[0]] + history[1..i] == history[..i];
    }
  }

  lemma {:induction false} ForgetAbsent(history: seq<Committed>, ts: nat)
    requires forall i :: 0 <= i < |history| ==> history[i].commitTs != ts
    ensures Forget(history, ts) == history
  {
    if history != [] { ForgetAbsent(history[1..], ts); }
  }

  lemma {:induction false} TrimAt(history: seq<Committed>, minTs: nat, i: nat)
    requires i <= |history| && forall j :: 0 <= j < i ==> history[j].commitTs < minTs
    requires i < |history| ==> history[i].commitTs >= minTs
    ensures Trim(history, minTs) == history[i..]
  {
    if i > 0 {
      TrimAt(history[1..], minTs, i - 1);
      assert history[1..][i - 1..] == history[i..];
    }
  }

  lemma MinReadUnique(o: OracleState, m: nat)
    requires IsMinRead(o, m)
    ensures m == MinRead(o)
  {}

  // ---------------------------------------------------------------- the oracle

  class Oracle {
    var nextTs: nat
    var appliedTs: nat
    var awaiting: set<nat>
    var history: seq<Committed>
    var historyIndex: map<Fp, seq<nat>>
    const watermark: WaterMark

    ghost predicate Valid()
      reads this, watermark
    {
      && watermark.Valid()
      && IndexAgrees(history, historyIndex)
      && Increasing(history)
      && forall c :: c in history ==> c.commitTs <= nextTs
    }

    ghost function State(): OracleState
      reads this, watermark
    {
      OracleState(nextTs, appliedTs, awaiting, history, watermark.readers)
    }

    constructor ()
      ensures Valid() && State() == Initial && fresh(watermark)
    {
      nextTs, appliedTs, awaiting, history, historyIndex := 1, 1, {}, [], map[];
      watermark := new WaterMark();
    }

    method AssignTsLocked() returns (ts: nat)
      requires Valid()
      modifies this`nextTs, this`awaiting
      ensures Valid() && State() == Assign(old(State())) && ts == nextTs
    {
      nextTs := nextTs + 1;
      awaiting := awaiting + {nextTs};
      return nextTs;
    }

    method NewReadTs() returns (readTs: nat)
      requires Valid()
      modifies watermark
      ensures Valid() && State() == OracleSpec.Begin(old(State())) && readTs == ReadTs(old(State()))
    {
      readTs := appliedTs;
      if readTs == 0 {
        readTs := 1;
      }
      watermark.Begin(readTs);
    }

    method Done(readTs: nat)
      requires Valid()
      modifies watermark
      ensures Valid() && State() == OracleSpec.Done(old(State()), readTs)
    {
      watermark.Done(readTs, appliedTs);
    }

    method MinReadTs() returns (m: nat)
      requires Valid()
      ensures m == MinRead(State())
    {
      m := watermark.MinReadTs(appliedTs);
      MinReadUnique(State(), m);
    }

    method AdvanceAppliedLocked()
      modifies this`appliedTs
      ensures appliedTs == AdvanceFrom(old(appliedTs), nextTs, awaiting)
    {
      while true
        invariant AdvanceFrom(appliedTs, nextTs, awaiting) == AdvanceFrom(old(appliedTs), nextTs, awaiting)
        decreases nextTs - appliedTs
      {
        var next := appliedTs + 1;
        if next > nextTs { break; }
        if next in awaiting { break; }
        appliedTs := next;
      }
    }

    method MarkApplied(ts: nat)
      requires Valid()
      modifies this`appliedTs, this`awaiting
      ensures Valid() && State() == OracleSpec.MarkApplied(old(State()), ts)
    {
      if ts <= appliedTs { return; }
      awaiting := awaiting - {ts};
      AdvanceAppliedLocked();
    }

    method LatestWriteLocked(fp: Fp) returns (max: nat)
      ensures forall ts :: ts in ListAt(historyIndex, fp) ==> ts <= max
      ensures max == 0 || max in ListAt(historyIndex, fp)
    {
      max := 0;
      var list := if fp in historyIndex then historyIndex[fp] else [];
      for i := 0 to |list|
        invariant forall j :: 0 <= j < i ==> list[j] <= max
        invariant max == 0 || max in list
      {
        if list[i] > max { max := list[i]; }
      }
    }

    /** Whether one of `fps` was written after `readTs`. */
    method AnyLaterWrite(fps: set<Fp>, readTs: nat) returns (found: bool)
      ensures found <==> exists fp, ts :: fp in fps && ts in ListAt(historyIndex, fp) && ts > readTs
    {
      var todo := fps;
      while todo != {}
        invariant todo <= fps
        invariant forall fp, ts :: fp in fps - todo && ts in ListAt(historyIndex, fp) ==> ts <= readTs
      {
        var fp :| fp in todo;
        var latest := LatestWriteLocked(fp);
        if latest > readTs { return true; }
        todo := todo - {fp};
      }
      return false;
    }

    method RemoveWriteVersionLocked(fp: Fp, commitTs: nat)
      modifies this`historyIndex
      ensures forall f: Fp :: ListAt(historyIndex, f) ==
                if f == fp then Without(ListAt(old(historyIndex), f), commitTs) else ListAt(old(historyIndex), f)
    {
      var list := if fp in historyIndex then historyIndex[fp] else [];
      var i := 0;
      while i < |list| && list[i] != commitTs
        invariant 0 <= i <= |list| && forall j :: 0 <= j < i ==> list[j] != commitTs
      {
        i := i + 1;
      }
      if i < |list| {
        WithoutAt(list, commitTs, i);
        list := list[..i] + list[i + 1..];
      } else {
        WithoutAbsent(list, commitTs);
      }
      if |list| == 0 {
        historyIndex := historyIndex - {fp};
        return;
      }
      historyIndex := historyIndex[fp := list];
    }

    method IndexWritesLocked(commitTs: nat, writeFps: set<Fp>)
      modifies this`historyIndex
      ensures forall f: Fp :: ListAt(historyIndex, f) ==
                ListAt(old(historyIndex), f) + if f in writeFps then [commitTs] else []
    {
      var todo := writeFps;
      while todo != {}
        invariant todo <= writeFps
        invariant forall f: Fp :: ListAt(historyIndex, f) ==
                    ListAt(old(historyIndex), f) + if f in writeFps - todo then [commitTs] else []
      {
        var fp :| fp in todo;
        historyIndex := historyIndex[fp := ListAt(historyIndex, fp) + [commitTs]];
        todo := todo - {fp};
      }
    }

    /** Takes one commit out of the index. */
    method UnindexLocked(txn: Committed)
      modifies this`historyIndex
      ensures forall f: Fp :: ListAt(historyIndex, f) ==
                if f in txn.writes then Without(ListAt(old(historyIndex), f), txn.commitTs)
                    else ListAt(old(historyIndex), f)
    {
      var todo := txn.writes;
      while todo != {}
        invariant todo <= txn.writes
        invariant forall f: Fp :: ListAt(historyIndex, f) ==
                    if f in txn.writes - todo then Without(ListAt(old(historyIndex), f), txn.commitTs)
                    else ListAt(old(historyIndex), f)
      {
        var fp :| fp in todo;
        RemoveWriteVersionLocked(fp, txn.commitTs);
        todo := todo - {fp};
      }
    }

    method TrimHistoryLocked(minActiveTs: nat)
      requires Valid()
      modifies this`history, this`historyIndex
      ensures Valid() && history == Trim(old(history), minActiveTs)
    {
      var i := 0;
      while i < |history|
        invariant 0 <= i <= |history| && forall j :: 0 <= j < i ==> history[j].commitTs < minActiveTs
      {
        if history[i].commitTs >= minActiveTs { break; }
        i := i + 1;
      }
      TrimAt(history, minActiveTs, i);
      if i == 0 { return; }
      UnindexFirst(i);
      history := history[i..];
    }

    /** The loop that drops the first `i` commits from the index. */
    method UnindexFirst(i: nat)
      requires i <= |history| && IndexAgrees(history, historyIndex) && Increasing(history)
      modifies this`historyIndex
      ensures IndexAgrees(history[i..], historyIndex)
    {
      for j := 0 to i
        invariant IndexAgrees(history[j..], historyIndex)
      {
        assert history[j..][1..] == history[j + 1..];
        ghost var before := historyIndex;
        UnindexLocked(history[j]);
        UnindexedHead(history[j..], before, historyIndex);
      }
    }

    method CheckAndCommit(readTs: nat, readFps: set<Fp>, writeFps: set<Fp>) returns (ts: Option<nat>)
      requires Valid()
      modifies this
      ensures Valid()
      ensures ts.None? <==> Conflicts(old(history), readTs, readFps + writeFps)
      ensures ts.None? ==> State() == old(State())
      ensures ts.Some? ==> ts.value == old(nextTs) + 1 && State() == Commit(old(State()), writeFps)
    {
      LatestConflicts(history, historyIndex, readTs, readFps + writeFps);
      var conflict := AnyLaterWrite(readFps, readTs);
      if conflict { return None; }
      conflict := AnyLaterWrite(writeFps, readTs);
      if conflict { return None; }

      var commitTs := AssignTsLocked();
      RememberLocked(Committed(commitTs, writeFps));
      return Some(commitTs);
    }

    method RememberLocked(c: Committed)
      requires Valid() && c.commitTs == nextTs && forall d :: d in history ==> d.commitTs < c.commitTs
      modifies this`history, this`historyIndex
      ensures Valid() && history == Trim(old(history) + [c], MinRead(old(State())))
    {
      IndexWritesLocked(c.commitTs, c.writes);
      AppendIndexed(history, c);
      history := history + [c];
      var m := watermark.MinReadTs(appliedTs);
      MinReadUnique(old(State()), m);
      TrimHistoryLocked(m);
    }

    method ForgetLocked(commitTs: nat)
      requires Valid()
      modifies this`history, this`historyIndex
      ensures Valid() && history == Forget(old(history), commitTs)
    {
      var found := 0;
      while found < |history| && history[found].commitTs != commitTs
        invariant 0 <= found <= |history| && forall j :: 0 <= j < found ==> history[j].commitTs != commitTs
      {
        found := found + 1;
      }
      if found == |history| {
        ForgetAbsent(history, commitTs);
        return;
      }
      UnindexLocked(history[found]);
      UnindexedAt(history, old(historyIndex), historyIndex, found);
      ForgetAt(history, commitTs, found);
      history := history[..found] + history[found + 1..];
    }

    method AbortCommit(commitTs: nat)
      requires Valid()
      modifies this
      ensures Valid() && State() == Abort(old(State()), commitTs)
    {
      awaiting := awaiting - {commitTs};
      ForgetLocked(commitTs);
      AdvanceAppliedLocked();
    }
  }

  lemma AppendIndexed(history: seq<Committed>, c: Committed)
    ensures forall f: Fp ::
        Posting(history + [c], f) == Posting(history, f) + if f in c.writes then [c.commitTs] else []
  {
    forall f: Fp ensures Posting(history + [c], f) == Posting(history, f) + if f in c.writes then [c.commitTs] else [] {
      PostingConcat(history, [c], f);
    }
  }
}
