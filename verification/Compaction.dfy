/** The version garbage collection of a compaction and the writer that cuts its output into
    tables, as the loops they are. */
module Compaction {
  import opened Store
  import opened ByteOrder
  import opened Entries
  import L = LsmStages
  import opened MergeIterators

  /** The watermark and clock sampled when the merge starts, and whether a lone dead version may
      go: only into the bottom level, with no snapshot behind and no value-log pass under way. */
  datatype Params = Params(minReadTs: nat, now: int, mayDrop: bool)

  // ---------------------------------------------------------------- what a merge should produce

  /** What the merge makes of a payload: a dead one is marked deleted. */
  function Mark(p: Payload, now: int): Payload {
    if Dead(p, now) then p.(deleted := true) else p
  }

  /** What a table keeps of a payload: no value for a tombstone. */
  function Erase(p: Payload): Payload {
    if p.deleted then p.(value := []) else p
  }

  function Settle(p: Payload, now: int): Payload {
    Erase(Mark(p, now))
  }

  /** `c` is the only version of its key that the watermark spares. */
  ghost predicate Alone(inputs: map<Cell, Payload>, m: nat, c: Cell) {
    forall d :: d in inputs && d.key == c.key && !L.Superseded(inputs, m, d) ==> d == c
  }

  /** `c` survives the merge. */
  ghost predicate Survives(inputs: map<Cell, Payload>, p: Params, c: Cell) {
    && c in inputs
    && !L.Superseded(inputs, p.minReadTs, c)
    && !(p.mayDrop && Alone(inputs, p.minReadTs, c) && Dead(inputs[c], p.now))
  }

  ghost function Output(inputs: map<Cell, Payload>, p: Params): map<Cell, Payload> {
    map c | c in inputs && Survives(inputs, p, c) :: Settle(inputs[c], p.now)
  }

  /** `c` is above the watermark, or no newer version of its key is at or below it. */
  ghost predicate Spared(inputs: map<Cell, Payload>, m: nat, c: Cell) {
    c.version > m || forall v :: c.version < v <= m ==> Cell(c.key, v) !in inputs
  }

  /** Told from the versions: a merge keeps what the watermark spares, unless that is a single version of its
      key, deleted or expired, and such versions may go. A version that is not deleted or expired is kept as it
      is, another one as a tombstone. */
  lemma OutputHolds(inputs: map<Cell, Payload>, p: Params, c: Cell)
    requires c in inputs
    ensures var gone := inputs[c].deleted || (inputs[c].expiresAt > 0 && p.now >= inputs[c].expiresAt);
            var alone := forall d :: d in inputs && d.key == c.key && Spared(inputs, p.minReadTs, d) ==> d == c;
            && (c in Output(inputs, p) <==> Spared(inputs, p.minReadTs, c) && !(p.mayDrop && gone && alone))
            && (c in Output(inputs, p) ==>
                  Output(inputs, p)[c] == if gone then Payload([], true, inputs[c].expiresAt) else inputs[c])
  {
    forall d | d in inputs ensures Spared(inputs, p.minReadTs, d) <==> !L.Superseded(inputs, p.minReadTs, d) {}
  }

  /** Compaction's version GC does what the layered store needs of it. */
  lemma OutputCollected(inputs: map<Cell, Payload>, p: Params, g: L.Merge)
    requires g.output == Output(inputs, p) && g.minReadTs == p.minReadTs && (p.mayDrop ==> g.to == L.BOTTOM)
    ensures L.Collected(g, inputs, p.now)
  {
    forall c | c in inputs && c !in g.output && !L.Superseded(inputs, p.minReadTs, c)
      ensures g.to == L.BOTTOM && Dead(inputs[c], p.now)
      ensures forall d :: d in inputs && d.key == c.key ==> d.version <= c.version
      ensures forall d :: d in g.output ==> d.key != c.key
    {
      assert p.mayDrop && Alone(inputs, p.minReadTs, c);
    }
  }

  /** Version GC never changes a read: for every timestamp at or above the watermark, and at any
      time from the compaction on, a lookup in the output observes what it observed in the inputs. */
  lemma OutputReadsAgree(inputs: map<Cell, Payload>, p: Params, k: Key, ts: nat, now: int)
    requires p.minReadTs <= ts && p.now <= now
    ensures ObserveCell(Lookup(Output(inputs, p), k, ts), now) == ObserveCell(Lookup(inputs, k, ts), now)
  {
    var out := Output(inputs, p);
    var v, w := Newest(inputs, k, ts), Newest(out, k, ts);
    if v.Some? {
      var c := Cell(k, v.value);
      assert !L.Superseded(inputs, p.minReadTs, c);
      if c in out {
        assert w == v;
      } else {
        assert Alone(inputs, p.minReadTs, c);
        assert w.None?;
      }
    }
  }

  // ---------------------------------------------------------------- one key's versions

  ghost predicate OneKey(group: Run, k: Key) {
    forall i :: 0 <= i < |group| ==> group[i].cell.key == k
  }

  /** A newer version of the group, still at or below the watermark, hides `c`. */
  ghost predicate Hidden(group: Run, m: nat, c: Cell) {
    exists f :: f in group && c.version < f.cell.version <= m
  }

  ghost predicate SomeAtMost(group: Run, m: nat) {
    exists f :: f in group && f.cell.version <= m
  }

  /** `kept` is what the watermark spares of `group`, each version once. */
  ghost predicate KeptOf(group: Run, m: nat, kept: Run) {
    && Sorted(kept)
    && (forall e :: e in kept ==> e in group)
    && (forall e :: e in group ==> (e.cell in Cells(kept) <==> !Hidden(group, m, e.cell)))
  }

  /** Nothing in `group` is older than `g`. */
  ghost predicate NoneOlder(group: Run, g: Entry, k: Key) {
    g.cell.key == k && forall e :: e in group ==> e.cell.key == k && e.cell.version >= g.cell.version
  }

  /** A version no newer than the rest hides nothing. */
  lemma HiddenSame(group: Run, g: Entry, m: nat, k: Key, c: Cell)
    requires NoneOlder(group, g, k) && c.version >= g.cell.version
    ensures Hidden(group + [g], m, c) == Hidden(group, m, c)
  {
    if Hidden(group, m, c) {
      var f :| f in group && c.version < f.cell.version <= m;
      assert f in group + [g];
    }
  }

  lemma LastIsOldest(kept: Run, e: Entry)
    requires Sorted(kept) && e in kept && forall f :: f in kept ==> f.cell.key == e.cell.key
    ensures kept[|kept| - 1].cell.version <= e.cell.version
  {
    var i :| 0 <= i < |kept| && kept[i] == e;
    var last := kept[|kept| - 1];
    assert last in kept;
    if i < |kept| - 1 {
      assert Before(kept[i].cell, last.cell);
      LtIrreflexive(e.cell.key);
    }
  }

  lemma AppendSorted(kept: Run, g: Entry)
    requires Sorted(kept) && forall f :: f in kept ==> f.cell.key == g.cell.key && f.cell.version > g.cell.version
    ensures Sorted(kept + [g])
  {}

  /** The newest version at or below the watermark is not hidden. */
  lemma NewestAtMost(group: Run, m: nat, start: Entry) returns (f: Entry)
    requires start in group && start.cell.version <= m
    ensures f in group && f.cell.version <= m && !Hidden(group, m, f.cell)
    decreases m - start.cell.version
  {
    f := start;
    if Hidden(group, m, start.cell) {
      var g :| g in group && start.cell.version < g.cell.version <= m;
      f := NewestAtMost(group, m, g);
    }
  }

  /** Skipping `g`: it is already there, or a kept older one hides it. */
  lemma SkipKept(group: Run, g: Entry, m: nat, k: Key, kept: Run, more: Run)
    requires KeptOf(group, m, kept) && NoneOlder(group, g, k) && more == group + [g]
    requires (g.cell in Cells(kept)) == !Hidden(group, m, g.cell)
    ensures KeptOf(more, m, kept)
  {
    forall e | e in more ensures e.cell in Cells(kept) <==> !Hidden(more, m, e.cell) {
      HiddenSame(group, g, m, k, e.cell);
    }
  }

  /** Keeping `g`: it is new and nothing hides it. */
  lemma TakeKept(group: Run, g: Entry, m: nat, k: Key, kept: Run, more: Run)
    requires KeptOf(group, m, kept) && NoneOlder(group, g, k) && !Hidden(group, m, g.cell) && more == group + [g]
    requires |kept| > 0 ==> kept[|kept| - 1].cell.version != g.cell.version
    ensures KeptOf(more, m, kept + [g])
  {
    forall f | f in kept ensures f.cell.key == g.cell.key && f.cell.version > g.cell.version {
      LastIsOldest(kept, f);
      assert kept[|kept| - 1] in kept;
    }
    AppendSorted(kept, g);
    forall e | e in more ensures e.cell in Cells(kept + [g]) <==> !Hidden(more, m, e.cell) {
      HiddenSame(group, g, m, k, e.cell);
      assert Cells(kept + [g]) == Cells(kept) + {g.cell};
      if e in group && e.cell == g.cell { assert !Hidden(group, m, e.cell); }
    }
  }

  lemma SameAsLast(group: Run, g: Entry, m: nat, k: Key, kept: Run, more: Run)
    requires KeptOf(group, m, kept) && NoneOlder(group, g, k) && more == group + [g]
    requires |kept| > 0 && kept[|kept| - 1].cell.version == g.cell.version
    ensures KeptOf(more, m, kept)
    ensures g.cell.version <= m ==> SomeAtMost(group, m)
  {
    var last := kept[|kept| - 1];
    assert last in kept && last in group && last.cell == g.cell;
    SkipKept(group, g, m, k, kept, more);
  }

  lemma HiddenByOlder(group: Run, g: Entry, m: nat, k: Key, kept: Run, more: Run)
    requires KeptOf(group, m, kept) && NoneOlder(group, g, k) && SomeAtMost(group, m) && more == group + [g]
    requires |kept| > 0 ==> kept[|kept| - 1].cell.version != g.cell.version
    ensures KeptOf(more, m, kept) && Hidden(group, m, g.cell)
  {
    var start :| start in group && start.cell.version <= m;
    var f := NewestAtMost(group, m, start);
    assert f.cell in Cells(kept);
    var e :| e in kept && e.cell == f.cell;
    LastIsOldest(kept, e);
    assert kept[|kept| - 1] in kept;
    assert g.cell.version < f.cell.version;
    if g.cell in Cells(kept) {
      var d :| d in kept && d.cell == g.cell;
      LastIsOldest(kept, d);
    }
    SkipKept(group, g, m, k, kept, more);
  }

  lemma PrefixNoneOlder(group: Run, n: nat, k: Key)
    requires InOrder(group) && OneKey(group, k) && n < |group|
    ensures NoneOlder(group[..n], group[n], k)
  {
    forall e | e in group[..n] ensures e.cell.key == k && e.cell.version >= group[n].cell.version {
      var i :| 0 <= i < n && group[i] == e;
      assert NotAfter(group[i].cell, group[n].cell);
      LtIrreflexive(k);
    }
  }

  lemma AtMostStep(group: Run, g: Entry, m: nat, more: Run)
    requires more == group + [g]
    ensures SomeAtMost(more, m) <==> SomeAtMost(group, m) || g.cell.version <= m
  {
    if SomeAtMost(group, m) {
      var f :| f in group && f.cell.version <= m;
      assert f in more;
    }
    if g.cell.version <= m { assert g in more; }
  }

  /** `dropped` are the versions that the watermark does not spare. */
  ghost predicate DroppedOf(group: Run, m: nat, dropped: Run) {
    Sorted(dropped) && forall e :: DroppedAt(group, m, dropped, e)
  }

  ghost predicate DroppedAt(group: Run, m: nat, dropped: Run, e: Entry) {
    e in dropped <==> e in group && Hidden(group, m, e.cell)
  }

  lemma SortedPrefix(group: Run, n: nat)
    requires Sorted(group) && n < |group|
    ensures group[n] !in group[..n] && forall e :: e in group[..n] ==> Before(e.cell, group[n].cell)
  {
    forall e | e in group[..n] ensures e != group[n] && Before(e.cell, group[n].cell) {
      var i :| 0 <= i < n && group[i] == e;
      BeforeIrreflexive(e.cell);
    }
  }

  /** One more version, spared or not. */
  lemma DropStep(group: Run, n: nat, m: nat, k: Key, dropped: Run, dropped': Run)
    requires Sorted(group) && n < |group| && NoneOlder(group[..n], group[n], k) && DroppedOf(group[..n], m, dropped)
    requires dropped' == if Hidden(group[..n], m, group[n].cell) then dropped + [group[n]] else dropped
    ensures DroppedOf(group[..n + 1], m, dropped')
  {
    var g, more := group[n], group[..n + 1];
    OneMore(group, n);
    SortedPrefix(group, n);
    forall e ensures DroppedAt(more, m, dropped', e) {
      assert DroppedAt(group[..n], m, dropped, e);
      if e in group[..n] + [g] { HiddenSame(group[..n], g, m, k, e.cell); }
    }
    if dropped' != dropped {
      forall e | e in dropped ensures Before(e.cell, g.cell) { assert DroppedAt(group[..n], m, dropped, e); }
      ConcatSorted(dropped, [g]);
    }
  }

  lemma TwinInPrefix(group: Run, n: nat, m: nat, kept: Run)
    requires Sorted(group) && n < |group| && KeptOf(group[..n], m, kept) && |kept| > 0
    ensures kept[|kept| - 1].cell != group[n].cell
  {
    SortedPrefix(group, n);
    var last := kept[|kept| - 1];
    assert last in kept && last in group[..n];
    BeforeIrreflexive(group[n].cell);
  }

  /** The first `n` versions are dealt with. */
  ghost predicate KeptTo(group: Run, n: nat, m: nat, k: Key, kept: Run, dropped: Run, keptOlder: bool) {
    && n <= |group| && InOrder(group) && OneKey(group, k)
    && keptOlder == SomeAtMost(group[..n], m) && KeptOf(group[..n], m, kept)
    && (Sorted(group) ==> DroppedOf(group[..n], m, dropped))
  }

  lemma OneMore(group: Run, n: nat)
    requires n < |group|
    ensures group[..n + 1] == group[..n] + [group[n]]
  {}

  lemma KeepTwin(group: Run, n: nat, m: nat, k: Key, kept: Run, dropped: Run, keptOlder: bool)
    requires KeptTo(group, n, m, k, kept, dropped, keptOlder) && n < |group|
    requires |kept| > 0 && kept[|kept| - 1].cell.version == group[n].cell.version
    ensures KeptTo(group, n + 1, m, k, kept, dropped, keptOlder)
  {
    var g := group[n];
    PrefixNoneOlder(group, n, k);
    OneMore(group, n);
    AtMostStep(group[..n], g, m, group[..n + 1]);
    SameAsLast(group[..n], g, m, k, kept, group[..n + 1]);
    LastKey(group[..n], m, kept, k);
    if Sorted(group) { TwinInPrefix(group, n, m, kept); }
  }

  lemma KeepTake(group: Run, n: nat, m: nat, k: Key, kept: Run, dropped: Run, keptOlder: bool)
    requires KeptTo(group, n, m, k, kept, dropped, keptOlder) && n < |group|
    requires |kept| > 0 ==> kept[|kept| - 1].cell.version != group[n].cell.version
    requires group[n].cell.version > m || !keptOlder
    ensures KeptTo(group, n + 1, m, k, kept + [group[n]], dropped, keptOlder || group[n].cell.version <= m)
  {
    var g := group[n];
    PrefixNoneOlder(group, n, k);
    OneMore(group, n);
    AtMostStep(group[..n], g, m, group[..n + 1]);
    TakeKept(group[..n], g, m, k, kept, group[..n + 1]);
    if Sorted(group) { DropStep(group, n, m, k, dropped, dropped); }
  }

  lemma KeepDrop(group: Run, n: nat, m: nat, k: Key, kept: Run, dropped: Run, keptOlder: bool)
    requires KeptTo(group, n, m, k, kept, dropped, keptOlder) && n < |group|
    requires |kept| > 0 ==> kept[|kept| - 1].cell.version != group[n].cell.version
    requires group[n].cell.version <= m && keptOlder
    ensures KeptTo(group, n + 1, m, k, kept, dropped + [group[n]], keptOlder)
  {
    var g := group[n];
    PrefixNoneOlder(group, n, k);
    OneMore(group, n);
    AtMostStep(group[..n], g, m, group[..n + 1]);
    HiddenByOlder(group[..n], g, m, k, kept, group[..n + 1]);
    if Sorted(group) { DropStep(group, n, m, k, dropped, dropped + [g]); }
  }

  /** The loop over one key's versions, newest first: everything above the watermark and the first
      version at or below it, each once. The rest is charged to the value log. */
  method Keep(group: Run, m: nat, k: Key) returns (kept: Run, dropped: Run)
    requires InOrder(group) && OneKey(group, k)
    ensures KeptOf(group, m, kept)
    ensures Sorted(group) ==> DroppedOf(group, m, dropped)
  {
    kept, dropped := [], [];
    var keptOlder := false;
    for n := 0 to |group|
      invariant KeptTo(group, n, m, k, kept, dropped, keptOlder)
    {
      var g := group[n];
      if |kept| > 0 && kept[|kept| - 1].cell.version == g.cell.version {
        KeepTwin(group, n, m, k, kept, dropped, keptOlder);
        continue;
      }
      if g.cell.version > m {
        KeepTake(group, n, m, k, kept, dropped, keptOlder);
        kept := kept + [g];
        continue;
      }
      if !keptOlder {
        KeepTake(group, n, m, k, kept, dropped, keptOlder);
        keptOlder := true;
        kept := kept + [g];
        continue;
      }
      KeepDrop(group, n, m, k, kept, dropped, keptOlder);
      dropped := dropped + [g];
    }
    assert group[..|group|] == group;
  }

  lemma LastKey(group: Run, m: nat, kept: Run, k: Key)
    requires KeptOf(group, m, kept) && |kept| > 0 && forall e :: e in group ==> e.cell.key == k
    ensures kept[|kept| - 1].cell.key == k
  {
    assert kept[|kept| - 1] in kept;
  }

  // ---------------------------------------------------------------- groups of one key

  /** What is written for one key. */
  function Emit(kept: Run, p: Params): Run {
    if |kept| == 1 && p.mayDrop && Dead(kept[0].payload, p.now) then []
    else seq(|kept|, i requires 0 <= i < |kept| => Entry(kept[i].cell, Settle(kept[i].payload, p.now)))
  }

  /** What is dropped although the watermark spares it. */
  function Buried(kept: Run, p: Params): Run {
    if |kept| == 1 && p.mayDrop && Dead(kept[0].payload, p.now) then [kept[0]] else []
  }

  /** `merged[i..j]` is all of one key. */
  ghost predicate IsGroup(merged: Run, i: nat, j: nat) {
    && i < j <= |merged| && OneKey(merged[i..j], merged[i].cell.key)
    && forall e :: e in merged && e.cell.key == merged[i].cell.key ==> e in merged[i..j]
  }

  /** Within its group, `c` is hidden exactly when it is superseded in the whole input. */
  lemma HiddenIsSuperseded(merged: Run, i: nat, j: nat, m: nat, c: Cell)
    requires Single(merged) && IsGroup(merged, i, j) && c.key == merged[i].cell.key
    ensures Hidden(merged[i..j], m, c) <==> L.Superseded(AsMap(merged), m, c)
  {
    if Hidden(merged[i..j], m, c) {
      var f :| f in merged[i..j] && c.version < f.cell.version <= m;
      assert f.cell == Cell(c.key, f.cell.version);
      assert f.cell in AsMap(merged);
    }
    if L.Superseded(AsMap(merged), m, c) {
      var v :| c.version < v <= m && Cell(c.key, v) in AsMap(merged);
      var f := Entry(Cell(c.key, v), AsMap(merged)[Cell(c.key, v)]);
      assert f in merged && f in merged[i..j];
    }
  }

  lemma KeptSpares(merged: Run, i: nat, j: nat, m: nat, kept: Run, e: Entry)
    requires Single(merged) && IsGroup(merged, i, j) && KeptOf(merged[i..j], m, kept)
    requires e in merged && e.cell.key == merged[i].cell.key
    ensures e in kept <==> !L.Superseded(AsMap(merged), m, e.cell)
  {
    HiddenIsSuperseded(merged, i, j, m, e.cell);
    assert e in merged[i..j];
    if e.cell in Cells(kept) {
      var f :| f in kept && f.cell == e.cell;
      assert f in merged[i..j] && f in merged;
    }
  }

  lemma SoloIsAlone(merged: Run, i: nat, j: nat, m: nat, kept: Run, e: Entry)
    requires Single(merged) && IsGroup(merged, i, j) && KeptOf(merged[i..j], m, kept) && e in kept
    ensures |kept| == 1 <==> Alone(AsMap(merged), m, e.cell)
  {
    assert e in merged[i..j] && e in merged;
    if |kept| == 1 {
      OneIsAlone(merged, i, j, m, kept, e);
    } else {
      var f := AnotherKept(kept, e);
      assert f in merged[i..j] && f in merged;
      KeptSpares(merged, i, j, m, kept, f);
    }
  }

  lemma OneIsAlone(merged: Run, i: nat, j: nat, m: nat, kept: Run, e: Entry)
    requires Single(merged) && IsGroup(merged, i, j) && KeptOf(merged[i..j], m, kept) && kept == [e]
    requires e.cell.key == merged[i].cell.key
    ensures Alone(AsMap(merged), m, e.cell)
  {
    var inputs := AsMap(merged);
    forall d | d in inputs && d.key == e.cell.key && !L.Superseded(inputs, m, d) ensures d == e.cell {
      KeptSpares(merged, i, j, m, kept, Entry(d, inputs[d]));
    }
  }

  lemma AnotherKept(kept: Run, e: Entry) returns (f: Entry)
    requires Sorted(kept) && e in kept && |kept| != 1
    ensures f in kept && f.cell != e.cell
  {
    var n :| 0 <= n < |kept| && kept[n] == e;
    f := kept[if n == 0 then 1 else 0];
    SortedDistinct(kept);
  }

  lemma KeptSurvives(merged: Run, i: nat, j: nat, p: Params, kept: Run, d: Entry)
    requires Single(merged) && IsGroup(merged, i, j) && KeptOf(merged[i..j], p.minReadTs, kept) && d in kept
    ensures d.cell in AsMap(merged) && AsMap(merged)[d.cell] == d.payload
    ensures Survives(AsMap(merged), p, d.cell) <==> Emit(kept, p) != []
  {
    assert d in merged[i..j] && d in merged;
    KeptSpares(merged, i, j, p.minReadTs, kept, d);
    SoloIsAlone(merged, i, j, p.minReadTs, kept, d);
  }

  /** What is written for a group is output of the whole merge. */
  lemma EmitInOutput(merged: Run, i: nat, j: nat, p: Params, kept: Run, e: Entry)
    requires Single(merged) && IsGroup(merged, i, j) && KeptOf(merged[i..j], p.minReadTs, kept) && e in Emit(kept, p)
    ensures e.cell in Output(AsMap(merged), p) && Output(AsMap(merged), p)[e.cell] == e.payload
    ensures e.cell in Cells(merged[i..j])
  {
    var n :| 0 <= n < |kept| && e == Entry(kept[n].cell, Settle(kept[n].payload, p.now));
    assert kept[n] in kept;
    KeptSurvives(merged, i, j, p, kept, kept[n]);
  }

  /** The output of the whole merge for the key of a group is written for it. */
  lemma OutputInEmit(merged: Run, i: nat, j: nat, p: Params, kept: Run, c: Cell)
    requires Single(merged) && IsGroup(merged, i, j) && KeptOf(merged[i..j], p.minReadTs, kept)
    requires c in Output(AsMap(merged), p) && c.key == merged[i].cell.key
    ensures Entry(c, Output(AsMap(merged), p)[c]) in Emit(kept, p)
  {
    var inputs := AsMap(merged);
    var d := Entry(c, inputs[c]);
    KeptSpares(merged, i, j, p.minReadTs, kept, d);
    KeptSurvives(merged, i, j, p, kept, d);
    var n :| 0 <= n < |kept| && kept[n] == d;
    assert Emit(kept, p)[n] == Entry(c, Settle(inputs[c], p.now));
  }

  lemma EmitSorted(kept: Run, p: Params, group: Run, m: nat)
    requires KeptOf(group, m, kept)
    ensures Sorted(Emit(kept, p))
    ensures forall e :: e in Emit(kept, p) ==> exists f :: f in group && f.cell == e.cell
  {
    forall e | e in Emit(kept, p) ensures exists f :: f in group && f.cell == e.cell {
      var n :| 0 <= n < |kept| && e == Entry(kept[n].cell, Settle(kept[n].payload, p.now));
      assert kept[n] in kept;
    }
  }

  // ---------------------------------------------------------------- the whole merge

  /** `done` is the output for the keys of `merged[..i]`. */
  ghost predicate DoneTo(merged: Run, p: Params, i: nat, done: Run)
    requires i <= |merged| && Single(merged)
  {
    && Sorted(done)
    && (forall e :: e in done ==> IsOutput(merged, p, e) && e.cell in Cells(merged[..i]))
    && (forall c :: c in Output(AsMap(merged), p) && c in Cells(merged[..i]) ==>
         Entry(c, Output(AsMap(merged), p)[c]) in done)
  }

  ghost predicate IsOutput(merged: Run, p: Params, e: Entry)
    requires Single(merged)
  {
    e.cell in Output(AsMap(merged), p) && Output(AsMap(merged), p)[e.cell] == e.payload
  }

  /** No key lies on both sides of `i`. */
  ghost predicate Boundary(merged: Run, i: nat)
    requires i <= |merged|
  {
    forall a, b :: 0 <= a < i <= b < |merged| ==> Lt(merged[a].cell.key, merged[b].cell.key)
  }

  lemma ConcatSorted(a: Run, b: Run)
    requires Sorted(a) && Sorted(b) && forall x, y :: x in a && y in b ==> Before(x.cell, y.cell)
    ensures Sorted(a + b)
  {}

  lemma CellsSplit(merged: Run, i: nat, j: nat)
    requires i <= j <= |merged|
    ensures Cells(merged[..j]) == Cells(merged[..i]) + Cells(merged[i..j])
  {
    assert merged[..j] == merged[..i] + merged[i..j];
  }

  /** One more group. */
  lemma DoneStep(merged: Run, p: Params, i: nat, j: nat, done: Run, kept: Run, all: Run)
    requires Single(merged) && IsGroup(merged, i, j) && DoneTo(merged, p, i, done) && Boundary(merged, i)
    requires KeptOf(merged[i..j], p.minReadTs, kept) && all == done + Emit(kept, p)
    ensures DoneTo(merged, p, j, all)
  {
    var more := Emit(kept, p);
    EmitSorted(kept, p, merged[i..j], p.minReadTs);
    CellsSplit(merged, i, j);
    forall x, y | x in done && y in more ensures Before(x.cell, y.cell) {
      assert x.cell in Cells(merged[..i]);
      var a :| 0 <= a < i && merged[a].cell == x.cell;
      var f :| f in merged[i..j] && f.cell == y.cell;
      assert Lt(merged[a].cell.key, merged[i].cell.key);
    }
    ConcatSorted(done, more);
    forall e | e in more ensures IsOutput(merged, p, e) && e.cell in Cells(merged[..j]) {
      EmitInOutput(merged, i, j, p, kept, e);
    }
    forall c | c in Output(AsMap(merged), p) && c in Cells(merged[..j])
      ensures Entry(c, Output(AsMap(merged), p)[c]) in done + more
    {
      if c !in Cells(merged[..i]) {
        var f :| f in merged[i..j] && f.cell == c;
        OutputInEmit(merged, i, j, p, kept, c);
      }
    }
  }

  /** The end of the run of equal keys that starts at `i`. */
  method GroupEnd(merged: Run, i: nat) returns (j: nat)
    requires InOrder(merged) && i < |merged| && Boundary(merged, i)
    ensures IsGroup(merged, i, j) && Boundary(merged, j)
  {
    var k := merged[i].cell.key;
    j := i;
    while j < |merged| && merged[j].cell.key == k
      invariant i <= j <= |merged| && forall n :: i <= n < j ==> merged[n].cell.key == k
    {
      j := j + 1;
    }
    GroupBounds(merged, i, j);
  }

  lemma GroupBounds(merged: Run, i: nat, j: nat)
    requires InOrder(merged) && i < j <= |merged| && Boundary(merged, i)
    requires forall n :: i <= n < j ==> merged[n].cell.key == merged[i].cell.key
    requires j < |merged| ==> merged[j].cell.key != merged[i].cell.key
    ensures IsGroup(merged, i, j) && Boundary(merged, j)
  {
    var k := merged[i].cell.key;
    forall a, b | 0 <= a < j <= b < |merged| ensures Lt(merged[a].cell.key, merged[b].cell.key) {
      assert NotAfter(merged[i].cell, merged[j].cell);
      assert Lt(k, merged[j].cell.key);
      if b > j { assert NotAfter(merged[j].cell, merged[b].cell); }
      if Lt(merged[j].cell.key, merged[b].cell.key) { LtTrans(k, merged[j].cell.key, merged[b].cell.key); }
    }
    forall e | e in merged && e.cell.key == k ensures e in merged[i..j] {
      var n :| 0 <= n < |merged| && merged[n] == e;
      LtIrreflexive(k);
      assert i <= n < j;
      assert merged[i..j][n - i] == e;
    }
  }

  // ---------------------------------------------------------------- cutting the output into tables

  const TABLE_BYTES := 8 * 1024 * 1024

  function Flatten(tables: seq<Run>): Run {
    if tables == [] then [] else Flatten(tables[..|tables| - 1]) + tables[|tables| - 1]
  }

  lemma FlattenSnoc(tables: seq<Run>, t: Run)
    ensures Flatten(tables + [t]) == Flatten(tables) + t
  {
    assert (tables + [t])[..|tables|] == tables;
  }

  ghost predicate InTable(tables: seq<Run>, i: int, e: Entry) {
    0 <= i < |tables| && e in tables[i]
  }

  lemma {:induction false} FlattenMembers(tables: seq<Run>, e: Entry)
    ensures e in Flatten(tables) <==> exists i :: InTable(tables, i, e)
  {
    if tables != [] {
      var front := tables[..|tables| - 1];
      FlattenMembers(front, e);
      assert forall i :: InTable(front, i, e) ==> InTable(tables, i, e);
      if e in tables[|tables| - 1] { assert InTable(tables, |tables| - 1, e); }
      if exists i :: InTable(tables, i, e) {
        var i :| InTable(tables, i, e);
        if i < |front| { assert InTable(front, i, e); }
      }
    }
  }

  /** No key has versions on both sides. */
  ghost predicate KeysApart(a: Run, b: Run) {
    forall e, f :: e in a && f in b ==> e.cell.key != f.cell.key
  }

  ghost predicate NoKeySplit(tables: seq<Run>) {
    forall i, j :: 0 <= i < j < |tables| ==> KeysApart(tables[i], tables[j])
  }

  /** The table written for `es`. */
  function Tabled(es: Run): Run {
    seq(|es|, i requires 0 <= i < |es| => Entry(es[i].cell, Erase(es[i].payload)))
  }

  /** Tables and buffer between two keys: no key is split, and no table is empty. */
  ghost predicate Whole(tables: seq<Run>, buf: Run) {
    && NoKeySplit(tables) && KeysApart(Flatten(tables), Tabled(buf))
    && forall t :: t in tables ==> t != []
  }

  lemma WholeFlush(tables: seq<Run>, buf: Run)
    requires Whole(tables, buf) && buf != []
    ensures Whole(tables + [Tabled(buf)], []) && Flatten(tables + [Tabled(buf)]) == Flatten(tables) + Tabled(buf)
  {
    FlattenSnoc(tables, Tabled(buf));
    SplitSnoc(tables, Tabled(buf));
  }

  /** What the writer counts for entries: their keys and values, and 33 bytes each. */
  function Weight(es: Run): nat {
    if es == [] then 0
    else var e := es[|es| - 1]; Weight(es[..|es| - 1]) + |e.cell.key| + |e.payload.value| + 33
  }

  class LevelWriter {
    var buf: Run
    var bytes: nat
    var tables: seq<Run>

    ghost function Written(): Run
      reads this
    {
      Flatten(tables) + Tabled(buf)
    }

    ghost predicate Counted()
      reads this
    {
      bytes == Weight(buf)
    }

    constructor ()
      ensures buf == [] && tables == [] && Counted()
    {
      buf, bytes, tables := [], 0, [];
    }

    method Add(e: Entry)
      requires Counted()
      modifies this`buf, this`bytes
      ensures buf == old(buf) + [e] && Counted()
    {
      buf := buf + [e];
      bytes := bytes + |e.cell.key| + |e.payload.value| + 33;
    }

    /** Starts a new table once the buffered entries weigh eight mebibytes. */
    method MaybeFlush()
      requires Whole(tables, buf) && Counted()
      modifies this
      ensures Whole(tables, buf) && Written() == old(Written()) && Counted()
      ensures if Weight(old(buf)) >= 8388608 then buf == [] && tables == old(tables) + [Tabled(old(buf))]
              else buf == old(buf) && tables == old(tables)
    {
      if bytes >= TABLE_BYTES { Flush(); }
    }

    method Flush()
      requires Whole(tables, buf) && Counted()
      modifies this
      ensures Whole(tables, buf) && Written() == old(Written()) && buf == [] && Counted()
      ensures tables == if old(buf) == [] then old(tables) else old(tables) + [Tabled(old(buf))]
    {
      if |buf| == 0 { return; }
      WholeFlush(tables, buf);
      tables := tables + [Tabled(buf)];
      buf := [];
      bytes := 0;
    }

    method Finish() returns (r: seq<Run>)
      requires Whole(tables, buf) && Counted()
      modifies this
      ensures Whole(r, []) && Flatten(r) == old(Written())
    {
      Flush();
      return tables;
    }
  }

  lemma SplitSnoc(tables: seq<Run>, t: Run)
    requires NoKeySplit(tables) && KeysApart(Flatten(tables), t)
    ensures NoKeySplit(tables + [t])
  {
    var all := tables + [t];
    forall i, j | 0 <= i < j < |all| ensures KeysApart(all[i], all[j]) {
      forall e: Entry, f: Entry | e in all[i] && f in all[j] ensures e.cell.key != f.cell.key {
        if j == |tables| { assert InTable(tables, i, e); FlattenMembers(tables, e); }
        else { assert KeysApart(tables[i], tables[j]); }
      }
    }
  }

  /** Writes what one key keeps, unless it is a lone dead version that may go. */
  method WriteGroup(w: LevelWriter, kept: Run, p: Params) returns (buried: Run)
    requires w.Counted()
    modifies w
    ensures w.Counted() && w.tables == old(w.tables) && Tabled(w.buf) == old(Tabled(w.buf)) + Emit(kept, p)
    ensures buried == Buried(kept, p)
  {
    buried := [];
    if |kept| == 1 {
      var head := kept[0];
      if Dead(head.payload, p.now) && p.mayDrop { return [head]; }
    }
    ghost var out := Emit(kept, p);
    for n := 0 to |kept|
      invariant w.Counted() && w.tables == old(w.tables) && Tabled(w.buf) == old(Tabled(w.buf)) + out[..n]
    {
      var g := kept[n];
      ghost var buf := w.buf;
      w.Add(Entry(g.cell, Mark(g.payload, p.now)));
      assert Tabled(w.buf) == Tabled(buf) + [out[n]];
      assert out[..n + 1] == out[..n] + [out[n]];
    }
    assert out[..|kept|] == out;
  }

  lemma GroupApart(merged: Run, p: Params, i: nat, j: nat, done: Run, tables: seq<Run>, buf: Run, more: Run)
    requires Single(merged) && IsGroup(merged, i, j) && Boundary(merged, i) && DoneTo(merged, p, i, done)
    requires done == Flatten(tables) + buf && KeysApart(Flatten(tables), buf)
    requires forall e :: e in more ==> e.cell.key == merged[i].cell.key
    ensures KeysApart(Flatten(tables), buf + more)
  {
    forall e, f | e in Flatten(tables) && f in buf + more ensures e.cell.key != f.cell.key {
      if f in more {
        assert e in done && e.cell in Cells(merged[..i]);
        var a :| 0 <= a < i && merged[a].cell == e.cell;
        assert Lt(merged[a].cell.key, merged[i].cell.key);
        LtIrreflexive(merged[i].cell.key);
      }
    }
  }

  lemma EmitKeys(merged: Run, i: nat, j: nat, p: Params, kept: Run)
    requires IsGroup(merged, i, j) && KeptOf(merged[i..j], p.minReadTs, kept)
    ensures forall e :: e in Emit(kept, p) ==> e.cell.key == merged[i].cell.key
  {
    EmitSorted(kept, p, merged[i..j], p.minReadTs);
  }

  /** Everything before `i` is written, and `i` starts a new key. */
  ghost predicate Drained(merged: Run, p: Params, i: nat, tables: seq<Run>, buf: Run)
    requires Single(merged)
  {
    && i <= |merged| && Boundary(merged, i) && Whole(tables, buf)
    && DoneTo(merged, p, i, Flatten(tables) + Tabled(buf))
  }

  lemma WholeMore(tables: seq<Run>, buf: Run, buf': Run)
    requires Whole(tables, buf) && KeysApart(Flatten(tables), Tabled(buf'))
    ensures Whole(tables, buf')
  {}

  lemma DrainStep(merged: Run, p: Params, i: nat, j: nat, kept: Run, tables: seq<Run>, buf: Run, buf': Run)
    requires Single(merged) && Drained(merged, p, i, tables, buf)
    requires IsGroup(merged, i, j) && Boundary(merged, j) && KeptOf(merged[i..j], p.minReadTs, kept)
    requires Tabled(buf') == Tabled(buf) + Emit(kept, p)
    ensures Drained(merged, p, j, tables, buf')
  {
    DoneStep(merged, p, i, j, Flatten(tables) + Tabled(buf), kept, Flatten(tables) + Tabled(buf'));
    EmitKeys(merged, i, j, p, kept);
    GroupApart(merged, p, i, j, Flatten(tables) + Tabled(buf), tables, Tabled(buf), Emit(kept, p));
    WholeMore(tables, buf, buf');
  }

  // ---------------------------------------------------------------- what is charged to the value log

  /** `dropped` are the versions of `merged[..i]` that have no place in the output, each once. */
  ghost predicate Gone(merged: Run, p: Params, i: nat, dropped: Run)
    requires i <= |merged| && Single(merged)
  {
    && Distinct(dropped)
    && forall e :: e in dropped <==> e in merged[..i] && LeftOut(merged, p, e)
  }

  ghost predicate Charged(merged: Run, p: Params, i: nat, dropped: Run) {
    i <= |merged| && Single(merged) && (Sorted(merged) ==> Gone(merged, p, i, dropped))
  }

  ghost predicate LeftOut(merged: Run, p: Params, e: Entry)
    requires Single(merged)
  {
    e.cell !in Output(AsMap(merged), p)
  }

  lemma GroupGone(merged: Run, i: nat, j: nat, p: Params, kept: Run, dropped: Run, e: Entry)
    requires Single(merged) && IsGroup(merged, i, j) && KeptOf(merged[i..j], p.minReadTs, kept)
    requires DroppedOf(merged[i..j], p.minReadTs, dropped)
    ensures e in dropped + Buried(kept, p) <==> e in merged[i..j] && LeftOut(merged, p, e)
  {
    assert DroppedAt(merged[i..j], p.minReadTs, dropped, e);
    if e in kept { assert e in merged[i..j]; }
    if e in merged[i..j] {
      assert e in merged;
      HiddenIsSuperseded(merged, i, j, p.minReadTs, e.cell);
      KeptSpares(merged, i, j, p.minReadTs, kept, e);
      if e in kept { KeptSurvives(merged, i, j, p, kept, e); }
    }
  }

  lemma GroupDistinct(group: Run, m: nat, p: Params, kept: Run, dropped: Run)
    requires KeptOf(group, m, kept) && DroppedOf(group, m, dropped)
    ensures Distinct(dropped + Buried(kept, p))
  {
    SortedDistinct(dropped);
    forall e | e in dropped && kept != [] ensures e.cell != kept[0].cell {
      assert DroppedAt(group, m, dropped, e);
      assert kept[0] in kept && kept[0].cell in Cells(kept);
      assert kept[0] in group;
    }
  }

  lemma ConcatDistinct(a: Run, b: Run)
    requires Distinct(a) && Distinct(b) && forall e, f :: e in a && f in b ==> e.cell != f.cell
    ensures Distinct(a + b)
  {}

  lemma GoneApart(merged: Run, i: nat, j: nat, gone: Run, more: Run)
    requires i <= j <= |merged| && Boundary(merged, i) && Distinct(gone) && Distinct(more)
    requires (forall e :: e in gone ==> e in merged[..i]) && forall f :: f in more ==> f in merged[i..j]
    ensures Distinct(gone + more)
  {
    forall e, f | e in gone && f in more ensures e.cell != f.cell {
      var a :| 0 <= a < i && merged[a] == e;
      var b :| i <= b < j && merged[b] == f;
      assert Lt(merged[a].cell.key, merged[b].cell.key);
      LtIrreflexive(e.cell.key);
    }
    ConcatDistinct(gone, more);
  }

  lemma GoneStep(merged: Run, p: Params, i: nat, j: nat, kept: Run, gone: Run, dropped: Run, all: Run)
    requires Single(merged) && IsGroup(merged, i, j) && Boundary(merged, i) && Gone(merged, p, i, gone)
    requires KeptOf(merged[i..j], p.minReadTs, kept) && DroppedOf(merged[i..j], p.minReadTs, dropped)
    requires all == gone + (dropped + Buried(kept, p))
    ensures Gone(merged, p, j, all)
  {
    var more := dropped + Buried(kept, p);
    forall e ensures e in more <==> e in merged[i..j] && LeftOut(merged, p, e) {
      GroupGone(merged, i, j, p, kept, dropped, e);
    }
    GroupDistinct(merged[i..j], p.minReadTs, p, kept, dropped);
    GoneApart(merged, i, j, gone, more);
    GoneMembers(merged, p, i, j, gone, more);
  }

  lemma GoneMembers(merged: Run, p: Params, i: nat, j: nat, gone: Run, more: Run)
    requires Single(merged) && i <= j <= |merged|
    requires forall e :: e in gone <==> e in merged[..i] && LeftOut(merged, p, e)
    requires forall e :: e in more <==> e in merged[i..j] && LeftOut(merged, p, e)
    ensures forall e :: e in gone + more <==> e in merged[..j] && LeftOut(merged, p, e)
  {
    assert merged[..j] == merged[..i] + merged[i..j];
  }

  lemma SubSorted(es: Run, i: nat, j: nat)
    requires Sorted(es) && i <= j <= |es|
    ensures Sorted(es[i..j])
  {}

  /** One key of the merge. */
  method DrainKey(merged: Run, p: Params, i: nat, w: LevelWriter, gone: Run) returns (j: nat, all: Run)
    requires InOrder(merged) && Single(merged) && i < |merged| && Drained(merged, p, i, w.tables, w.buf)
    requires Charged(merged, p, i, gone) && w.Counted()
    modifies w
    ensures i < j && Drained(merged, p, j, w.tables, w.buf) && Charged(merged, p, j, all)
    ensures w.Counted() && Weight(w.buf) < 8388608
  {
    j := GroupEnd(merged, i);
    SubOrder(merged, i, j);
    var kept, dropped := Keep(merged[i..j], p.minReadTs, merged[i].cell.key);
    ghost var tables, buf := w.tables, w.buf;
    var buried := WriteGroup(w, kept, p);
    DrainStep(merged, p, i, j, kept, tables, buf, w.buf);
    all := gone + (dropped + buried);
    if Sorted(merged) {
      SubSorted(merged, i, j);
      GoneStep(merged, p, i, j, kept, gone, dropped, all);
    }
    w.MaybeFlush();
  }

  lemma DrainStart(merged: Run, p: Params)
    requires Single(merged)
    ensures Drained(merged, p, 0, [], []) && Charged(merged, p, 0, [])
  {
    assert Flatten([]) + Tabled([]) == [];
  }

  lemma DrainEnd(merged: Run, p: Params, tables: seq<Run>, buf: Run, r: seq<Run>)
    requires Single(merged) && Drained(merged, p, |merged|, tables, buf) && Flatten(r) == Flatten(tables) + Tabled(buf)
    ensures Sorted(Flatten(r)) && Single(Flatten(r)) && AsMap(Flatten(r)) == Output(AsMap(merged), p)
  {
    DoneAll(merged, p, Flatten(r));
  }

  /** The merge loop: sorted tables that together hold exactly the output, no key split over two;
      and, if no version occurs twice, exactly the other versions charged as dropped. */
  method Drain(merged: Run, p: Params) returns (tables: seq<Run>, dropped: Run)
    requires InOrder(merged) && Single(merged)
    ensures Sorted(Flatten(tables)) && Single(Flatten(tables))
    ensures AsMap(Flatten(tables)) == Output(AsMap(merged), p)
    ensures Whole(tables, []) && Charged(merged, p, |merged|, dropped)
  {
    var w := new LevelWriter();
    var i := 0;
    dropped := [];
    DrainStart(merged, p);
    while i < |merged|
      invariant i <= |merged| && fresh(w) && Drained(merged, p, i, w.tables, w.buf) && w.Counted()
      invariant Charged(merged, p, i, dropped)
    {
      i, dropped := DrainKey(merged, p, i, w, dropped);
    }
    ghost var written, buf := w.tables, w.buf;
    tables := w.Finish();
    DrainEnd(merged, p, written, buf, tables);
  }

  lemma DoneAll(merged: Run, p: Params, done: Run)
    requires Single(merged) && DoneTo(merged, p, |merged|, done)
    ensures Single(done) && AsMap(done) == Output(AsMap(merged), p)
  {
    SortedDistinct(done);
    DistinctSingle(done);
    assert merged[..|merged|] == merged;
    var out := Output(AsMap(merged), p);
    forall c | c in out ensures c in AsMap(done) && AsMap(done)[c] == out[c] {
      assert Entry(c, AsMap(merged)[c]) in merged;
      assert c in Cells(merged);
      assert Entry(c, out[c]) in done;
    }
    forall c | c in AsMap(done) ensures c in out {
      assert IsOutput(merged, p, Entry(c, AsMap(done)[c]));
    }
  }

  lemma SubOrder(es: Run, i: nat, j: nat)
    requires InOrder(es) && i <= j <= |es|
    ensures InOrder(es[i..j])
  {}
}
