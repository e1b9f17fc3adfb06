/** The storage tree as the engine holds it: two memtables and five levels of tables, changed in
    place. Each method is one critical section, and is proved to be the step of the layered store
    that the refinement of `LsmRefinement` is about. */
module StorageTree {
  import opened Store
  import opened ByteOrder
  import opened Entries
  import opened MergeIterators
  import opened Compaction
  import opened Tables
  import opened Levels
  import L = LsmStages
  import R = LsmRefinement

  const MAX_LEVELS := 5

  /** Tombstones carry no value. */
  ghost predicate Clean(es: Run) {
    forall i :: 0 <= i < |es| && es[i].payload.deleted ==> es[i].payload.value == []
  }

  ghost predicate MemOk(es: Run) {
    Sorted(es) && Clean(es)
  }

  ghost predicate LevelsOk(levels: seq<Level>) {
    && |levels| == MAX_LEVELS
    && (forall i :: 0 <= i < MAX_LEVELS ==> LevelOk(levels[i]))
    && (forall i :: 1 <= i < MAX_LEVELS ==> KeyDisjoint(levels[i]))
  }

  ghost predicate LevelsShown(levels: seq<Level>, s: L.Stack)
    requires LevelsOk(levels)
  {
    forall i :: 0 <= i < MAX_LEVELS ==> s[i + L.L0] == Content(levels[i])
  }

  // ---------------------------------------------------------------- what a merge does to the levels

  lemma MovesNewer(l: L.Lsm, levels: seq<Level>, from: nat, to: nat, taken: Level)
    requires R.Inv(l) && l.moving.None? && LevelsOk(levels) && LevelsShown(levels, l.stages)
    requires from < to < MAX_LEVELS && forall t :: t in taken ==> t in levels[from]
    ensures Newer(taken, levels[to])
  {
    forall i, j, e, f | Held(taken, i, e) && Held(levels[to], j, f) && e.cell.key == f.cell.key
      ensures f.cell.version < e.cell.version
    {
      var m := MemberHeld(taken, levels[from], i, e);
      HeldInContent(levels[from], m, e);
      HeldInContent(levels[to], j, f);
      assert R.Holds(R.CNewerAbove, l);
      assert R.Ordered(l, from + L.L0, to + L.L0, e.cell, f.cell);
    }
  }

  /** One level replaced. */
  lemma LevelReplaced(levels: seq<Level>, s: L.Stack, s': L.Stack, i: nat, ts: Level)
    requires LevelsOk(levels) && LevelsShown(levels, s) && i < MAX_LEVELS
    requires LevelOk(ts) && (i > 0 ==> KeyDisjoint(ts)) && s'[i + L.L0] == Content(ts)
    requires forall a: L.Ix :: L.L0 <= a <= L.BOTTOM && a != i + L.L0 ==> s'[a] == s[a]
    ensures LevelsOk(levels[i := ts]) && LevelsShown(levels[i := ts], s')
  {
    var levels' := levels[i := ts];
    forall j | 0 <= j < MAX_LEVELS ensures s'[j + L.L0] == Content(levels'[j]) {
      var a: L.Ix := j + L.L0;
      if j != i { assert s'[a] == s[a]; }
    }
  }

  function Sources(ts: Level): seq<Run> {
    seq(|ts|, i requires 0 <= i < |ts| => ts[i].entries)
  }

  /** The merged run holds exactly the entries of the chosen tables. */
  lemma MergedMembers(lower: Level, taken: Level, merged: Run, e: Entry)
    requires multiset(merged) == Rest(Sources(lower) + Sources(taken), seq(|lower| + |taken|, _ => 0))
    ensures e in merged <==> e in InputsOf(taken, lower)
  {
    var sources, zero := Sources(lower) + Sources(taken), seq(|lower| + |taken|, _ => 0);
    RestMembers(sources, zero, e);
    assert e in merged <==> e in multiset(merged);
    if e in merged {
      var i :| 0 <= i < |sources| && e in sources[i][zero[i]..];
      assert if i < |lower| then Held(lower, i, e) else Held(taken, i - |lower|, e);
    }
    if e in EntriesOf(lower) {
      var i := Where(lower, e);
      assert sources[i][zero[i]..] == lower[i].entries;
    } else if e in EntriesOf(taken) {
      var i := Where(taken, e);
      assert sources[|lower| + i][zero[|lower| + i]..] == taken[i].entries;
    }
  }

  lemma SortedInOrder(es: Run)
    requires Sorted(es)
    ensures InOrder(es)
  {}

  lemma SourcesInOrder(lower: Level, taken: Level)
    requires TablesOk(lower) && TablesOk(taken)
    ensures var s := Sources(lower) + Sources(taken); forall i :: 0 <= i < |s| ==> InOrder(s[i])
  {
    var s := Sources(lower) + Sources(taken);
    forall i | 0 <= i < |s| ensures InOrder(s[i]) {
      if i < |lower| { assert TableOk(lower[i]); } else { assert TableOk(taken[i - |lower|]); }
      SortedInOrder(s[i]);
    }
  }

  /** Merges the chosen tables into tables for the level below. */
  method MergeTables(ghost up: Level, ghost down: Level, taken: Level, lower: Level, p: Params) returns (added: Level)
    requires Chosen(up, down, taken, lower)
    ensures Written(added, Output(InputMap(up, down, taken, lower), p))
  {
    SourcesInOrder(lower, taken);
    var merged := MergeVersions(Sources(lower) + Sources(taken));
    assert seq(|Sources(lower) + Sources(taken)|, _ => 0) == seq(|lower| + |taken|, _ => 0);
    MergedInputs(up, down, taken, lower, merged);
    var runs, _ := Drain(merged, p);
    TablesWritten(runs, Output(InputMap(up, down, taken, lower), p));
    return AsTables(runs);
  }

  lemma MergedInputs(up: Level, down: Level, taken: Level, lower: Level, merged: Run)
    requires Chosen(up, down, taken, lower)
    requires multiset(merged) == Rest(Sources(lower) + Sources(taken), seq(|lower| + |taken|, _ => 0))
    ensures Single(merged) && AsMap(merged) == InputMap(up, down, taken, lower)
  {
    InputsUnique(up, down, taken, lower);
    forall e ensures e in merged <==> e in InputsOf(taken, lower) { MergedMembers(lower, taken, merged, e); }
    assert forall c :: c in AsMap(merged) ==> Entry(c, AsMap(merged)[c]) in merged;
  }

  lemma ChosenHolds(l: L.Lsm, levels: seq<Level>, from: nat, to: nat, taken: Level, lower: Level)
    requires R.Inv(l) && l.moving.None? && LevelsOk(levels) && LevelsShown(levels, l.stages)
    requires from < to < MAX_LEVELS && LevelOk(taken) && Closed(levels[from], taken)
    requires KeyDisjoint(lower) && forall t :: t in lower <==> t in levels[to] && Touches(taken, t)
    ensures Chosen(levels[from], levels[to], taken, lower)
  {
    MovesNewer(l, levels, from, to, taken);
    forall i | 0 <= i < |lower| ensures TableOk(lower[i]) { assert lower[i] in levels[to]; }
  }

  lemma InstallEnabled(l: L.Lsm, levels: seq<Level>, from: nat, to: nat, taken: Level, lower: Level, p: Params)
    requires R.Inv(l) && l.moving.None? && LevelsOk(levels) && LevelsShown(levels, l.stages) && from < to < MAX_LEVELS
    requires Chosen(levels[from], levels[to], taken, lower) && forall b :: from < b < to ==> levels[b] == []
    requires p.now <= l.now && (p.mayDrop ==> to == MAX_LEVELS - 1)
    requires p.minReadTs <= l.horizon && forall id :: L.Reading(l, id) ==> p.minReadTs <= l.readers[id].ts
    ensures L.Enabled(l, L.Install(MergeOf(from + L.L0, to + L.L0, levels[from], levels[to], taken, lower, p)))
  {
    var g := MergeOf(from + L.L0, to + L.L0, levels[from], levels[to], taken, lower, p);
    forall b: L.Ix | g.from < b < g.to ensures l.stages[b] == map[] {
      assert l.stages[b - L.L0 + L.L0] == Content(levels[b - L.L0]);
    }
    ChosenMergeable(l.stages, g, levels[from], levels[to], taken, lower, p, l.now);
  }

  lemma NewLevel(l: L.Lsm, levels: seq<Level>, from: nat, to: nat, taken: Level, lower: Level, p: Params, added: Level,
      ts: Level)
    requires LevelsOk(levels) && LevelsShown(levels, l.stages) && from < to < MAX_LEVELS
    requires Chosen(levels[from], levels[to], taken, lower)
    requires Written(added, Output(InputMap(levels[from], levels[to], taken, lower), p))
    requires TablesOk(ts) && KeyDisjoint(ts) && forall t :: t in ts <==> t in Without(levels[to], lower) + added
    ensures LevelsOk(levels[to := ts])
    ensures var g := MergeOf(from + L.L0, to + L.L0, levels[from], levels[to], taken, lower, p);
            LevelsShown(levels[to := ts], L.DoInstall(l, g).stages)
  {
    var g := MergeOf(from + L.L0, to + L.L0, levels[from], levels[to], taken, lower, p);
    forall t ensures t in Without(levels[to], lower) <==>
        t in levels[to] && t !in lower { WithoutMembers(levels[to], lower, t); }
    MergedContent(levels[from], levels[to], taken, lower, added, ts);
    LevelReplaced(levels, l.stages, L.DoInstall(l, g).stages, to, ts);
  }

  lemma InsertMem(l: L.Lsm, mem: Run, c: Cell, p: Payload)
    requires R.Inv(l) && L.Enabled(l, L.Insert(c, p)) && MemOk(mem) && l.stages[L.MEM] == RunMap(mem)
        && (p.deleted ==> p.value == [])
    ensures MemOk(PutFront(mem, Entry(c, p))) && RunMap(PutFront(mem, Entry(c, p))) == RunMap(mem)[c := p]
  {
    forall d | d in mem && d.cell.key == c.key ensures d.cell.version < c.version {
      assert R.Holds(R.CSourced, l);
      assert R.SourcedAt(l.stages, l.flat, l.clock, L.MEM, d.cell);
    }
    PutMem(mem, Entry(c, p));
  }

  lemma PutMem(mem: Run, e: Entry)
    requires MemOk(mem) && (e.payload.deleted ==> e.payload.value == [])
    requires forall d :: d in mem && d.cell.key == e.cell.key ==> d.cell.version < e.cell.version
    ensures MemOk(PutFront(mem, e)) && RunMap(PutFront(mem, e)) == RunMap(mem)[e.cell := e.payload]
  {
    PutFrontSorted(mem, e);
    PutFrontMap(mem, e);
    var out := PutFront(mem, e);
    forall i | 0 <= i < |out| && out[i].payload.deleted ensures out[i].payload.value == [] {
      PutFrontMembers(mem, e, out[i]);
      assert out[i] in out;
    }
  }

  lemma PutFrontMap(mem: Run, e: Entry)
    requires Sorted(mem) && Sorted(PutFront(mem, e)) && forall d :: d in mem ==> d.cell != e.cell
    ensures RunMap(PutFront(mem, e)) == RunMap(mem)[e.cell := e.payload]
  {
    var out := PutFront(mem, e);
    var m, n := RunMap(mem), RunMap(out);
    forall x | x in n ensures x in m[e.cell := e.payload] && n[x] == m[e.cell := e.payload][x] {
      PutFrontMembers(mem, e, Entry(x, n[x]));
    }
    forall x | x in m ensures x in n {
      PutFrontMembers(mem, e, Entry(x, m[x]));
    }
    PutFrontMembers(mem, e, e);
  }

  /** What is flushed is newer than all of level 0. */
  lemma FlushedLevel(l: L.Lsm, imm: Run, ts: Level)
    requires R.Inv(l) && L.Enabled(l, L.InstallL0) && Sorted(imm) && imm != [] && LevelOk(ts)
    requires l.stages[L.IMM] == RunMap(imm) && l.stages[L.L0] == Content(ts)
    ensures LevelOk(ts + [Table(imm)]) && Content(ts + [Table(imm)]) == Content(ts) + RunMap(imm)
  {
    var t := Table(imm);
    forall i, e, f | Held(ts, i, e) && f in t.entries && e.cell.key == f.cell.key
      ensures e.cell.version < f.cell.version {
      HeldInContent(ts, i, e);
      assert R.Holds(R.CNewerAbove, l);
      assert R.Ordered(l, L.IMM, L.L0, f.cell, e.cell);
    }
    OldestSnoc(ts, t);
    SnocContent(ts, t);
  }

  lemma SnocContent(ts: Level, t: Table)
    requires LevelOk(ts) && TableOk(t) && LevelOk(ts + [t])
    ensures Content(ts + [t]) == Content(ts) + RunMap(t.entries)
  {
    var all := ts + [t];
    var m, n := Content(all), Content(ts) + RunMap(t.entries);
    forall e | e in t.entries ensures e.cell in m && m[e.cell] == e.payload {
      HeldInContent(all, |ts|, e);
    }
    forall c | c in Content(ts) ensures c in m && m[c] == Content(ts)[c] {
      SubContent(ts, all, c);
    }
    forall c | c in m ensures c in n {
      var i := ContentHeld(all, c);
      if i < |ts| { HeldInContent(ts, i, Entry(c, m[c])); }
    }
  }

  lemma PickClosed(ts: Level, pick: Table, taken: Level)
    requires LevelOk(ts) && KeyDisjoint(ts) && pick in ts && taken == [pick]
    ensures LevelOk(taken) && Closed(ts, taken)
  {
    var n :| 0 <= n < |ts| && ts[n] == pick;
    forall i, j, e, f | Held(ts, i, e) && Held(taken, j, f) && e.cell.key == f.cell.key ensures ts[i] in taken {
      assert Held(ts, n, f);
      assert i == n;
    }
  }

  const NO_TABLES: seq<Level> := [[], [], [], [], []]

  lemma EmptyShown()
    ensures LevelsOk(NO_TABLES) && LevelsShown(NO_TABLES, L.Empty.stages)
  {
    forall i | 0 <= i < MAX_LEVELS
      ensures LevelOk(NO_TABLES[i]) && KeyDisjoint(NO_TABLES[i]) && Content(NO_TABLES[i]) == map[] {
      assert NO_TABLES[i] == [];
    }
  }

  // ---------------------------------------------------------------- the tree

  class LevelTree {
    var mem: Run
    /** Empty when there is no immutable memtable. */
    var imm: Run
    var levels: seq<Level>
    ghost var lsm: L.Lsm

    ghost predicate Valid()
      reads this
    {
      && R.Inv(lsm) && MemOk(mem) && MemOk(imm) && LevelsOk(levels)
      && lsm.stages[L.MEM] == RunMap(mem) && lsm.stages[L.IMM] == RunMap(imm) && LevelsShown(levels, lsm.stages)
    }

    constructor ()
      ensures Valid() && lsm == L.Empty
    {
      mem, imm, levels, lsm := [], [], NO_TABLES, L.Empty;
      R.InvEmpty();
      EmptyShown();
    }

    method Insert(c: Cell, p: Payload)
      requires Valid() && L.Enabled(lsm, L.Insert(c, p)) && (p.deleted ==> p.value == [])
      modifies this
      ensures Valid() && lsm == L.Step(old(lsm), L.Insert(c, p))
    {
      InsertMem(lsm, mem, c, p);
      R.InvStep(lsm, L.Insert(c, p));
      mem := PutFront(mem, Entry(c, p));
      lsm := L.Step(lsm, L.Insert(c, p));
    }

    /** First pointer store of a rotation. */
    method RotateImm()
      requires Valid() && L.Enabled(lsm, L.RotateImm)
      modifies this
      ensures Valid() && lsm == L.Step(old(lsm), L.RotateImm)
    {
      R.InvStep(lsm, L.RotateImm);
      imm := mem;
      lsm := L.Step(lsm, L.RotateImm);
    }

    /** Second pointer store of a rotation. */
    method RotateMem()
      requires Valid() && L.Enabled(lsm, L.RotateMem)
      modifies this
      ensures Valid() && lsm == L.Step(old(lsm), L.RotateMem)
    {
      R.InvStep(lsm, L.RotateMem);
      mem := [];
      lsm := L.Step(lsm, L.RotateMem);
    }

    /** The flushed memtable becomes the newest table of level 0. */
    method InstallFlush()
      requires Valid() && L.Enabled(lsm, L.InstallL0)
      modifies this
      ensures Valid() && lsm == L.Step(old(lsm), L.InstallL0)
      ensures imm == old(imm)
    {
      R.InvStep(lsm, L.InstallL0);
      ghost var l := lsm;
      lsm := L.Step(lsm, L.InstallL0);
      if |imm| == 0 {
        assert l.stages[L.L0] + RunMap(imm) == l.stages[L.L0];
        return;
      }
      FlushedLevel(l, imm, levels[0]);
      LevelReplaced(levels, l.stages, lsm.stages, 0, levels[0] + [Table(imm)]);
      levels := levels[0 := levels[0] + [Table(imm)]];
    }

    method ClearImm()
      requires Valid() && L.Enabled(lsm, L.ClearImm)
      modifies this
      ensures Valid() && lsm == L.Step(old(lsm), L.ClearImm)
    {
      R.InvStep(lsm, L.ClearImm);
      imm := [];
      lsm := L.Step(lsm, L.ClearImm);
    }

    /** Merges `taken` into level `to` and installs the result there. */
    method InstallMerge(from: nat, to: nat, taken: Level, p: Params) returns (ghost g: L.Merge)
      requires Valid() && lsm.moving.None? && from < to < MAX_LEVELS
      requires LevelOk(taken) && Closed(levels[from], taken)
      requires forall b :: from < b < to ==> levels[b] == []
      requires p.now <= lsm.now && (p.mayDrop ==> to == MAX_LEVELS - 1)
      requires p.minReadTs <= lsm.horizon && forall id :: L.Reading(lsm, id) ==> p.minReadTs <= lsm.readers[id].ts
      modifies this
      ensures Valid() && L.Enabled(old(lsm), L.Install(g)) && lsm == L.Step(old(lsm), L.Install(g))
      ensures g.from == from + L.L0 && g.to == to + L.L0 && g.upper == Content(taken).Keys && g.minReadTs == p.minReadTs
      ensures levels[from] == old(levels[from]) && ByMinKey(levels[to])
    {
      ghost var up, down, l := levels[from], levels[to], lsm;
      var lower := Overlapping(levels[to], taken);
      ChosenHolds(l, levels, from, to, taken, lower);
      g := MergeOf(from + L.L0, to + L.L0, up, down, taken, lower, p);
      InstallEnabled(l, levels, from, to, taken, lower, p);
      R.InvStep(l, L.Install(g));
      lsm := L.Step(l, L.Install(g));

      var added := MergeTables(up, down, taken, lower, p);
      var rest := Remaining(levels[to], lower);
      MergedLevel(up, down, taken, lower, p, added);
      var sorted := SortByMinKey(rest + added);
      NewLevel(l, levels, from, to, taken, lower, p, added, sorted);
      levels := levels[to := sorted];
    }

    /** Drops from level `lvl` the tables that were merged into a deeper level. */
    method RemoveFromLevel(lvl: nat, remove: Level)
      requires Valid() && lvl < MAX_LEVELS && LevelOk(remove) && forall t :: t in remove ==> t in levels[lvl]
      requires lsm.moving.Some? && lsm.moving.value.from == lvl + L.L0 && lsm.moving.value.cells == Content(remove).Keys
      modifies this
      ensures Valid() && lsm == L.Step(old(lsm), L.Remove) && levels[lvl] == Without(old(levels[lvl]), remove)
    {
      ghost var l := lsm;
      R.InvStep(l, L.Remove);
      lsm := L.Step(l, L.Remove);
      var rest := Remaining(levels[lvl], remove);
      WithoutOldest(levels[lvl], remove);
      WithoutContent(levels[lvl], remove);
      if lvl > 0 { WithoutDisjoint(levels[lvl], remove); }
      LevelReplaced(levels, l.stages, lsm.stages, lvl, rest);
      levels := levels[lvl := rest];
    }

    /** Both critical sections of a compaction in a row. */
    method MergeDown(from: nat, to: nat, taken: Level, p: Params)
      requires Valid() && lsm.moving.None? && from < to < MAX_LEVELS
      requires LevelOk(taken) && Closed(levels[from], taken)
      requires forall b :: from < b < to ==> levels[b] == []
      requires p.now <= lsm.now && (p.mayDrop ==> to == MAX_LEVELS - 1)
      requires p.minReadTs <= lsm.horizon && forall id :: L.Reading(lsm, id) ==> p.minReadTs <= lsm.readers[id].ts
      modifies this
      ensures Valid() && lsm.moving.None? && levels[from] == Without(old(levels[from]), taken)
      ensures lsm.flat == old(lsm.flat) && lsm.horizon == old(lsm.horizon)
          && lsm.floor == L.Max(old(lsm.floor), p.minReadTs)
    {
      var g := InstallMerge(from, to, taken, p);
      RemoveFromLevel(from, taken);
    }

    /** All of level 0 into the base level. */
    method CompactLevel0(base: nat, p: Params)
      requires Valid() && lsm.moving.None? && 0 < base < MAX_LEVELS
      requires forall b :: 0 < b < base ==> levels[b] == []
      requires p.now <= lsm.now && (p.mayDrop ==> base == MAX_LEVELS - 1)
      requires p.minReadTs <= lsm.horizon && forall id :: L.Reading(lsm, id) ==> p.minReadTs <= lsm.readers[id].ts
      modifies this
      ensures Valid() && lsm.moving.None? && levels[0] == []
      ensures lsm.flat == old(lsm.flat) && lsm.horizon == old(lsm.horizon)
          && lsm.floor <= L.Max(old(lsm.floor), p.minReadTs)
    {
      if |levels[0]| == 0 { return; }
      var taken := levels[0];
      MergeDown(0, base, taken, p);
      WithoutAll(taken, taken);
    }

    /** One table into the next level. */
    method CompactLevelTable(from: nat, pick: Table, p: Params)
      requires Valid() && lsm.moving.None? && 0 < from < MAX_LEVELS && pick in levels[from]
      requires p.now <= lsm.now && (p.mayDrop ==> from + 1 == MAX_LEVELS - 1)
      requires p.minReadTs <= lsm.horizon && forall id :: L.Reading(lsm, id) ==> p.minReadTs <= lsm.readers[id].ts
      modifies this
      ensures Valid() && lsm.moving.None? && (from < MAX_LEVELS - 1 ==> pick !in levels[from])
      ensures forall t :: t in old(levels[from]) && t != pick ==> t in levels[from]
      ensures lsm.flat == old(lsm.flat) && lsm.horizon == old(lsm.horizon)
          && lsm.floor <= L.Max(old(lsm.floor), p.minReadTs)
    {
      if from >= MAX_LEVELS - 1 { return; }
      var taken := [pick];
      PickClosed(levels[from], pick, taken);
      ghost var was := levels[from];
      MergeDown(from, from + 1, taken, p);
      forall t ensures t in levels[from] <==> t in was && t != pick { WithoutMembers(was, taken, t); }
    }

    /** Steps of readers and of the clock change no memtable and no level. */
    ghost method Pass(a: L.Action)
      requires Valid() && L.Enabled(lsm, a) && (a.RaiseHorizon? || a.Tick? || a.StartRead? || a.ReadStage?)
      modifies this`lsm
      ensures Valid() && lsm == L.Step(old(lsm), a)
    {
      R.InvStep(lsm, a);
      lsm := L.Step(lsm, a);
    }

    /** What a reader finds in one stage. */
    method ReadStage(stage: nat, k: Key, ts: nat) returns (hit: Option<Payload>)
      requires Valid() && stage <= L.BOTTOM
      ensures (stage >= L.L0 ==> NoneCrosses(levels[stage - L.L0], k, ts)) ==> hit == Lookup(lsm.stages[stage], k, ts)
    {
      if stage == L.MEM {
        FindIsLookup(mem, RunMap(mem), k, ts);
        return Find(mem, k, ts);
      } else if stage == L.IMM {
        FindIsLookup(imm, RunMap(imm), k, ts);
        return Find(imm, k, ts);
      } else {
        hit := SearchLevel(levels[stage - L.L0], k, ts);
        if NoneCrosses(levels[stage - L.L0], k, ts) { LevelHitIs(levels[stage - L.L0], k, ts); }
      }
    }

    /** The layered read: it answers what the flat store of everything ever inserted holds, unless in some
        table the versions of the key cross a restart point. */
    method GetAt(k: Key, ts: nat, now: int) returns (r: Option<Bytes>)
      requires Valid() && lsm.floor <= ts <= lsm.horizon && now == lsm.now
      ensures (forall i :: 0 <= i < MAX_LEVELS ==> NoneCrosses(levels[i], k, ts)) ==>
                match Lookup(lsm.flat, k, ts)
                case None => r == None
                case Some(p) =>
                  r == if !p.deleted && (p.expiresAt <= 0 || now < p.expiresAt) then Some(p.value) else None
    {
      var stage := 0;
      ghost var clean := forall i :: 0 <= i < MAX_LEVELS ==> NoneCrosses(levels[i], k, ts);
      while stage < L.BOTTOM + 1
        invariant stage <= L.BOTTOM + 1
        invariant clean && stage <= L.BOTTOM ==> R.OnTrack(lsm, L.Reader(k, ts, L.At(stage)))
        invariant clean && stage > L.BOTTOM ==> ObserveCell(Lookup(lsm.flat, k, ts), now).None?
      {
        if clean { R.VisitAnswers(lsm, L.Reader(k, ts, L.At(stage))); }
        var hit := ReadStage(stage, k, ts);
        if hit.Some? { return Observe(hit.value, now); }
        stage := stage + 1;
      }
      return None;
    }
  }
}
