/** Merging tables of one level into another: what the level below holds afterwards. */
module Levels {
  import opened Store
  import opened ByteOrder
  import opened Entries
  import opened Compaction
  import opened Tables
  import L = LsmStages

  // ---------------------------------------------------------------- choosing and removing tables

  /** `t` overlaps one of `taken`. */
  ghost predicate Touches(taken: Level, t: Table) {
    exists i :: 0 <= i < |taken| && RangesOverlap(taken[i], t)
  }

  /** The tables of `ts` that overlap one of `taken`. */
  method Overlapping(ts: Level, taken: Level) returns (lower: Level)
    requires KeyDisjoint(ts)
    ensures KeyDisjoint(lower) && forall t :: t in lower <==> t in ts && Touches(taken, t)
  {
    lower := [];
    for n := 0 to |ts|
      invariant KeyDisjoint(lower) && forall t :: t in lower <==> t in ts[..n] && Touches(taken, t)
    {
      var overlaps := Overlaps(taken, ts[n]);
      assert ts[..n + 1] == ts[..n] + [ts[n]];
      if overlaps {
        OthersApart(ts, n, lower);
        DisjointSnoc(lower, ts[n]);
        lower := lower + [ts[n]];
      }
    }
    assert ts[..|ts|] == ts;
  }

  method Overlaps(taken: Level, t: Table) returns (overlaps: bool)
    ensures overlaps <==> Touches(taken, t)
  {
    for m := 0 to |taken|
      invariant forall i :: 0 <= i < m ==> !RangesOverlap(taken[i], t)
    {
      if RangesOverlap(taken[m], t) { return true; }
    }
    return false;
  }

  /** The tables of `ts` that are not among `remove`, in order. */
  function Without(ts: Level, remove: Level): Level {
    if ts == [] then []
    else
      var front := Without(ts[..|ts| - 1], remove);
      if ts[|ts| - 1] in remove then front else front + [ts[|ts| - 1]]
  }

  lemma {:induction false} WithoutMembers(ts: Level, remove: Level, t: Table)
    ensures t in Without(ts, remove) <==> t in ts && t !in remove
  {
    if ts != [] {
      WithoutMembers(ts[..|ts| - 1], remove, t);
      assert ts == ts[..|ts| - 1] + [ts[|ts| - 1]];
    }
  }

  lemma {:induction false} WithoutAll(ts: Level, remove: Level)
    requires forall t :: t in ts ==> t in remove
    ensures Without(ts, remove) == []
  {
    if ts != [] {
      WithoutAll(ts[..|ts| - 1], remove);
      assert ts[|ts| - 1] in ts;
    }
  }

  /** The loop that rebuilds a level without some of its tables. */
  method Remaining(ts: Level, remove: Level) returns (rest: Level)
    ensures rest == Without(ts, remove)
  {
    rest := [];
    for n := 0 to |ts|
      invariant rest == Without(ts[..n], remove)
    {
      var keep := true;
      for m := 0 to |remove|
        invariant keep <==> ts[n] !in remove[..m]
      {
        if ts[n] == remove[m] {
          keep := false;
          break;
        }
      }
      assert remove[..|remove|] == remove;
      assert ts[..n + 1][..n] == ts[..n];
      if keep { rest := rest + [ts[n]]; }
    }
    assert ts[..|ts|] == ts;
  }

  // ---------------------------------------------------------------- levels without shared keys

  ghost predicate Apart(ts: Level, t: Table) {
    forall i, e, f :: Held(ts, i, e) && f in t.entries ==> e.cell.key != f.cell.key
  }

  lemma DisjointSnoc(ts: Level, t: Table)
    requires KeyDisjoint(ts) && Apart(ts, t)
    ensures KeyDisjoint(ts + [t])
  {
    var all := ts + [t];
    forall i, j, e, f | i < j && Held(all, i, e) && Held(all, j, f) ensures e.cell.key != f.cell.key {
      assert Held(ts, i, e);
      if j < |ts| { assert Held(ts, j, f); }
    }
  }

  lemma DisjointFront(ts: Level)
    requires KeyDisjoint(ts) && ts != []
    ensures KeyDisjoint(ts[..|ts| - 1]) && Apart(ts[..|ts| - 1], ts[|ts| - 1])
  {
    var n := |ts| - 1;
    forall i, j, e, f | i < j && Held(ts[..n], i, e) && Held(ts[..n], j, f) ensures e.cell.key != f.cell.key {
      assert Held(ts, i, e) && Held(ts, j, f);
    }
    forall i, e, f | Held(ts[..n], i, e) && f in ts[n].entries ensures e.cell.key != f.cell.key {
      assert Held(ts, i, e) && Held(ts, n, f);
    }
  }

  lemma ApartSub(ts: Level, us: Level, t: Table)
    requires Apart(us, t) && forall u :: u in ts ==> u in us
    ensures Apart(ts, t)
  {
    forall i, e, f | Held(ts, i, e) && f in t.entries ensures e.cell.key != f.cell.key {
      assert ts[i] in us;
      var j :| 0 <= j < |us| && us[j] == ts[i];
      assert Held(us, j, e);
    }
  }

  lemma {:induction false} WithoutDisjoint(ts: Level, remove: Level)
    requires KeyDisjoint(ts)
    ensures KeyDisjoint(Without(ts, remove))
  {
    if ts != [] {
      var front, last := ts[..|ts| - 1], ts[|ts| - 1];
      DisjointFront(ts);
      WithoutDisjoint(front, remove);
      forall u | u in Without(front, remove) ensures u in front { WithoutMembers(front, remove, u); }
      ApartSub(Without(front, remove), front, last);
      DisjointSnoc(Without(front, remove), last);
    }
  }

  lemma {:induction false} ConcatDisjoint(ts: Level, us: Level)
    requires KeyDisjoint(ts) && KeyDisjoint(us) && forall u :: u in us ==> Apart(ts, u)
    ensures KeyDisjoint(ts + us)
  {
    var all := ts + us;
    forall i, j, e, f | i < j && Held(all, i, e) && Held(all, j, f) ensures e.cell.key != f.cell.key {
      if j < |ts| { assert Held(ts, i, e) && Held(ts, j, f); }
      else if i >= |ts| { assert Held(us, i - |ts|, e) && Held(us, j - |ts|, f); }
      else { assert us[j - |ts|] in us && Held(ts, i, e); }
    }
  }

  /** `ts` with `t` put before the first table with a larger first key. */
  function InsertByMinKey(ts: Level, t: Table): Level {
    if ts == [] || Lt(MinKey(t), MinKey(ts[0])) then [t] + ts
    else [ts[0]] + InsertByMinKey(ts[1..], t)
  }

  ghost predicate ByMinKey(ts: Level) {
    forall i, j :: 0 <= i < j < |ts| ==> Lt(MinKey(ts[i]), MinKey(ts[j]))
  }

  lemma DisjointCons(t: Table, ts: Level)
    requires KeyDisjoint(ts) && Apart(ts, t)
    ensures KeyDisjoint([t] + ts)
  {
    var all := [t] + ts;
    forall i, j, e, f | i < j && Held(all, i, e) && Held(all, j, f) ensures e.cell.key != f.cell.key {
      assert Held(ts, j - 1, f);
      if i > 0 { assert Held(ts, i - 1, e); }
    }
  }

  lemma DisjointTail(ts: Level)
    requires KeyDisjoint(ts) && ts != []
    ensures KeyDisjoint(ts[1..]) && Apart(ts[1..], ts[0])
  {
    forall i, j, e, f | i < j && Held(ts[1..], i, e) && Held(ts[1..], j, f) ensures e.cell.key != f.cell.key {
      assert Held(ts, i + 1, e) && Held(ts, j + 1, f);
    }
    forall i, e, f | Held(ts[1..], i, e) && f in ts[0].entries ensures e.cell.key != f.cell.key {
      assert Held(ts, i + 1, e) && Held(ts, 0, f);
    }
  }

  lemma {:induction false} InsertMembers(ts: Level, t: Table, u: Table)
    ensures u in InsertByMinKey(ts, t) <==> u == t || u in ts
  {
    if ts != [] && !Lt(MinKey(t), MinKey(ts[0])) {
      assert ts == [ts[0]] + ts[1..];
      InsertMembers(ts[1..], t, u);
    }
  }

  lemma {:induction false} InsertDisjoint(ts: Level, t: Table)
    requires KeyDisjoint(ts) && Apart(ts, t)
    ensures KeyDisjoint(InsertByMinKey(ts, t))
  {
    if ts == [] || Lt(MinKey(t), MinKey(ts[0])) {
      DisjointCons(t, ts);
    } else {
      var tail := InsertByMinKey(ts[1..], t);
      DisjointTail(ts);
      ApartSub(ts[1..], ts, t);
      InsertDisjoint(ts[1..], t);
      forall i, e, f | Held(tail, i, e) && f in ts[0].entries ensures e.cell.key != f.cell.key {
        InsertMembers(ts[1..], t, tail[i]);
        assert Held(ts, 0, f);
        if tail[i] != t {
          var j :| 0 <= j < |ts[1..]| && ts[1..][j] == tail[i];
          assert Held(ts[1..], j, e);
        }
      }
      DisjointCons(ts[0], tail);
    }
  }

  lemma {:induction false} InsertSorted(ts: Level, t: Table)
    requires TableOk(t) && TablesOk(ts) && ByMinKey(ts) && Apart(ts, t)
    ensures TablesOk(InsertByMinKey(ts, t)) && ByMinKey(InsertByMinKey(ts, t))
  {
    var out := InsertByMinKey(ts, t);
    forall i | 0 <= i < |out| ensures TableOk(out[i]) { InsertMembers(ts, t, out[i]); }
    if ts == [] {
    } else if Lt(MinKey(t), MinKey(ts[0])) {
      forall i, j | 0 <= i < j < |out| ensures Lt(MinKey(out[i]), MinKey(out[j])) {
        assert out[j] == ts[j - 1];
        if j > 1 { assert Lt(MinKey(ts[0]), MinKey(ts[j - 1])); }
        if i == 0 && j > 1 { LtTrans(MinKey(t), MinKey(ts[0]), MinKey(ts[j - 1])); }
      }
    } else {
      var tail := InsertByMinKey(ts[1..], t);
      ApartSub(ts[1..], ts, t);
      InsertSorted(ts[1..], t);
      forall j | 0 <= j < |tail| ensures Lt(MinKey(ts[0]), MinKey(tail[j])) {
        InsertMembers(ts[1..], t, tail[j]);
        assert Held(ts, 0, ts[0].entries[0]) && t.entries[0] in t.entries;
        LtTotal(MinKey(t), MinKey(ts[0]));
        if tail[j] != t {
          var m :| 0 <= m < |ts[1..]| && ts[1..][m] == tail[j];
          assert tail[j] == ts[m + 1];
        }
      }
      forall i, j | 0 <= i < j < |out| ensures Lt(MinKey(out[i]), MinKey(out[j])) {
        assert out[j] == tail[j - 1];
        if i > 0 { assert out[i] == tail[i - 1]; }
      }
    }
  }

  /** The level sorted by first key. */
  method SortByMinKey(ts: Level) returns (out: Level)
    requires TablesOk(ts) && KeyDisjoint(ts)
    ensures TablesOk(out) && KeyDisjoint(out) && ByMinKey(out)
    ensures forall t :: t in out <==> t in ts
  {
    out := [];
    for n := 0 to |ts|
      invariant TablesOk(out) && KeyDisjoint(out) && ByMinKey(out)
      invariant forall t :: t in out <==> t in ts[..n]
    {
      assert ts[n] in ts && ts[..n + 1] == ts[..n] + [ts[n]];
      OthersApart(ts, n, out);
      InsertDisjoint(out, ts[n]);
      InsertSorted(out, ts[n]);
      forall t ensures t in InsertByMinKey(out, ts[n]) <==> t in ts[..n + 1] { InsertMembers(out, ts[n], t); }
      out := InsertByMinKey(out, ts[n]);
    }
    assert ts[..|ts|] == ts;
  }

  lemma OthersApart(ts: Level, n: nat, out: Level)
    requires KeyDisjoint(ts) && n < |ts| && forall t :: t in out ==> t in ts[..n]
    ensures Apart(out, ts[n])
  {
    forall i, e, f | Held(out, i, e) && f in ts[n].entries ensures e.cell.key != f.cell.key {
      assert out[i] in ts[..n];
      var j :| 0 <= j < n && ts[j] == out[i];
      assert Held(ts, j, e) && Held(ts, n, f);
    }
  }

  // ---------------------------------------------------------------- a merge, table by table

  /** Every table of `up` that shares a key with `taken` is itself taken. */
  ghost predicate Closed(up: Level, taken: Level) {
    && (forall t :: t in taken ==> t in up)
    && forall i, j, e, f :: Held(up, i, e) && Held(taken, j, f) && e.cell.key == f.cell.key ==> up[i] in taken
  }

  /** What moves down is newer than what is there. */
  ghost predicate Newer(taken: Level, down: Level) {
    forall i, j, e, f :: Held(taken, i, e) && Held(down, j, f) && e.cell.key == f.cell.key ==>
        f.cell.version < e.cell.version
  }

  ghost predicate Chosen(up: Level, down: Level, taken: Level, lower: Level) {
    && LevelOk(up) && LevelOk(down) && KeyDisjoint(down)
    && LevelOk(taken) && Closed(up, taken) && Newer(taken, down)
    && LevelOk(lower) && (forall t :: t in lower <==> t in down && Touches(taken, t))
  }

  ghost function InputsOf(taken: Level, lower: Level): set<Entry> {
    EntriesOf(lower) + EntriesOf(taken)
  }

  lemma MemberHeld(ts: Level, us: Level, i: int, e: Entry) returns (j: int)
    requires Held(ts, i, e) && ts[i] in us
    ensures Held(us, j, e) && us[j] == ts[i]
  {
    j :| 0 <= j < |us| && us[j] == ts[i];
  }

  lemma InputsUnique(up: Level, down: Level, taken: Level, lower: Level)
    requires Chosen(up, down, taken, lower)
    ensures Unique(InputsOf(taken, lower))
  {
    LevelUnique(taken);
    LevelUnique(lower);
    forall e, f | e in EntriesOf(taken) && f in EntriesOf(lower) ensures e.cell != f.cell {
      var i := Where(taken, e);
      var j := Where(lower, f);
      var m := MemberHeld(lower, down, j, f);
    }
  }

  /** A key that is taken is not held by a lower table that stays. */
  lemma StaysApart(up: Level, down: Level, taken: Level, lower: Level, i: int, e: Entry, j: int, f: Entry)
    requires Chosen(up, down, taken, lower) && Held(down, i, e) && down[i] !in lower
    requires Held(taken, j, f) || Held(lower, j, f)
    ensures e.cell.key != f.cell.key
  {
    if Held(lower, j, f) {
      var m := MemberHeld(lower, down, j, f);
      assert m != i;
    } else {
      assert !RangesOverlap(taken[j], down[i]);
      if e.cell.key == f.cell.key { SharedKeyOverlaps(taken[j], down[i], f, e); }
    }
  }

  lemma SubContent(ts: Level, us: Level, c: Cell)
    requires LevelOk(ts) && LevelOk(us) && (forall t :: t in ts ==> t in us) && c in Content(ts)
    ensures c in Content(us) && Content(us)[c] == Content(ts)[c]
  {
    var i := ContentHeld(ts, c);
    var j := MemberHeld(ts, us, i, Entry(c, Content(ts)[c]));
    HeldInContent(us, j, Entry(c, Content(ts)[c]));
  }

  ghost function InputMap(up: Level, down: Level, taken: Level, lower: Level): L.Stage
    requires Chosen(up, down, taken, lower)
  {
    InputsUnique(up, down, taken, lower);
    MapOf(InputsOf(taken, lower))
  }

  /** The merge that the tables stand for. */
  ghost function MergeOf(from: L.Ix, to: L.Ix, up: Level, down: Level, taken: Level, lower: Level, p: Params): L.Merge
    requires Chosen(up, down, taken, lower)
  {
    L.Merge(from, to, Content(taken).Keys, Content(lower).Keys, Output(InputMap(up, down, taken, lower), p),
        p.minReadTs)
  }

  /** The chosen tables as seen in a stack that shows the two levels. */
  ghost predicate Shown(s: L.Stack, from: L.Ix, to: L.Ix, up: Level, down: Level)
    requires LevelOk(up) && LevelOk(down)
  {
    s[from] == Content(up) && s[to] == Content(down)
  }

  lemma TakenInput(up: Level, down: Level, taken: Level, lower: Level, c: Cell)
    requires Chosen(up, down, taken, lower) && c in Content(taken)
    ensures c in Content(up) && c in InputMap(up, down, taken, lower)
    ensures Content(up)[c] == InputMap(up, down, taken, lower)[c]
  {
    InputsUnique(up, down, taken, lower);
    SubContent(taken, up, c);
    var i := ContentHeld(taken, c);
    assert Entry(c, Content(taken)[c]) in EntriesOf(taken);
  }

  lemma LowerInput(up: Level, down: Level, taken: Level, lower: Level, c: Cell)
    requires Chosen(up, down, taken, lower) && c in Content(lower)
    ensures c in Content(down) && c in InputMap(up, down, taken, lower)
    ensures Content(down)[c] == InputMap(up, down, taken, lower)[c]
  {
    InputsUnique(up, down, taken, lower);
    SubContent(lower, down, c);
    var i := ContentHeld(lower, c);
    assert Entry(c, Content(lower)[c]) in EntriesOf(lower);
  }

  lemma OnlyInputs(up: Level, down: Level, taken: Level, lower: Level, c: Cell)
    requires Chosen(up, down, taken, lower) && c in InputMap(up, down, taken, lower)
    ensures c in Content(taken) || c in Content(lower)
  {
    InputsUnique(up, down, taken, lower);
    InputContent(taken, lower, Entry(c, InputMap(up, down, taken, lower)[c]));
  }

  lemma SameInputs(s: L.Stack, g: L.Merge, n: L.Stage)
    requires forall c :: c in g.upper ==> c in s[g.from] && c in n && s[g.from][c] == n[c]
    requires forall c :: c in g.lower ==> c in s[g.to] && c in n && s[g.to][c] == n[c]
    requires forall c :: c in n ==> c in g.upper || c in g.lower
    ensures L.Inputs(s, g) == n
  {}

  lemma InputsShown(s: L.Stack, g: L.Merge, up: Level, down: Level, taken: Level, lower: Level)
    requires Chosen(up, down, taken, lower) && Shown(s, g.from, g.to, up, down)
    requires g.upper == Content(taken).Keys && g.lower == Content(lower).Keys
    ensures L.Inputs(s, g) == InputMap(up, down, taken, lower)
    ensures g.upper <= s[g.from].Keys && g.lower <= s[g.to].Keys
  {
    var n := InputMap(up, down, taken, lower);
    forall c | c in g.upper
      ensures c in s[g.from] && c in n && s[g.from][c] == n[c] { TakenInput(up, down, taken, lower, c); }
    forall c | c in g.lower
      ensures c in s[g.to] && c in n && s[g.to][c] == n[c] { LowerInput(up, down, taken, lower, c); }
    forall c | c in n ensures c in g.upper || c in g.lower { OnlyInputs(up, down, taken, lower, c); }
    SameInputs(s, g, n);
  }

  lemma InputContent(taken: Level, lower: Level, e: Entry)
    requires LevelOk(taken) && LevelOk(lower) && e in InputsOf(taken, lower)
    ensures e.cell in Content(taken) || e.cell in Content(lower)
  {
    if e in EntriesOf(taken) {
      var i := Where(taken, e);
      HeldInContent(taken, i, e);
    } else {
      var i := Where(lower, e);
      HeldInContent(lower, i, e);
    }
  }

  lemma UpperWhole(up: Level, down: Level, taken: Level, lower: Level, c: Cell)
    requires Chosen(up, down, taken, lower) && c in Content(up) && L.HasKey(Content(taken).Keys, c.key)
    ensures c in Content(taken)
  {
    var d :| d in Content(taken).Keys && d.key == c.key;
    var j := ContentHeld(taken, d);
    var i := ContentHeld(up, c);
    var m := MemberHeld(up, taken, i, Entry(c, Content(up)[c]));
    HeldInContent(taken, m, Entry(c, Content(up)[c]));
  }

  lemma LowerWhole(up: Level, down: Level, taken: Level, lower: Level, c: Cell)
    requires Chosen(up, down, taken, lower) && c in Content(down)
    requires L.HasKey(Content(taken).Keys, c.key) || L.HasKey(Content(lower).Keys, c.key)
    ensures c in Content(lower)
  {
    var e := Entry(c, Content(down)[c]);
    var i := ContentHeld(down, c);
    if down[i] in lower {
      var m := MemberHeld(down, lower, i, e);
      HeldInContent(lower, m, e);
    } else {
      if L.HasKey(Content(taken).Keys, c.key) {
        var d :| d in Content(taken).Keys && d.key == c.key;
        var j := ContentHeld(taken, d);
        StaysApart(up, down, taken, lower, i, e, j, Entry(d, Content(taken)[d]));
      } else {
        var d :| d in Content(lower).Keys && d.key == c.key;
        var j := ContentHeld(lower, d);
        StaysApart(up, down, taken, lower, i, e, j, Entry(d, Content(lower)[d]));
      }
      assert false;
    }
  }

  lemma CollectedLater(g: L.Merge, inputs: L.Stage, since: int, now: int)
    requires L.Collected(g, inputs, since) && since <= now
    ensures L.Collected(g, inputs, now)
  {}

  /** Merging the chosen tables is a merge of the layered store. */
  lemma ChosenMergeable(s: L.Stack, g: L.Merge, up: Level, down: Level, taken: Level, lower: Level, p: Params, now: int)
    requires Chosen(up, down, taken, lower) && Shown(s, g.from, g.to, up, down)
    requires g == MergeOf(g.from, g.to, up, down, taken, lower, p)
    requires L.L0 <= g.from < g.to <= L.BOTTOM && (forall b: L.Ix :: g.from < b < g.to ==> s[b] == map[])
    requires p.now <= now && (p.mayDrop ==> g.to == L.BOTTOM)
    ensures L.Mergeable(s, g, now)
  {
    InputsShown(s, g, up, down, taken, lower);
    OutputCollected(InputMap(up, down, taken, lower), p, g);
    CollectedLater(g, L.Inputs(s, g), p.now, now);
    ChosenWhole(s, g, up, down, taken, lower);
  }

  lemma ChosenWhole(s: L.Stack, g: L.Merge, up: Level, down: Level, taken: Level, lower: Level)
    requires Chosen(up, down, taken, lower) && Shown(s, g.from, g.to, up, down)
    requires g.upper == Content(taken).Keys && g.lower == Content(lower).Keys
    ensures forall c :: c in s[g.from] && L.HasKey(g.upper, c.key) ==> c in g.upper
    ensures forall c :: c in s[g.to] && (L.HasKey(g.upper, c.key) || L.HasKey(g.lower, c.key)) ==> c in g.lower
  {
    forall c | c in s[g.from] && L.HasKey(g.upper, c.key)
      ensures c in g.upper { UpperWhole(up, down, taken, lower, c); }
    forall c | c in s[g.to] && (L.HasKey(g.upper, c.key) || L.HasKey(g.lower, c.key)) ensures c in g.lower {
      LowerWhole(up, down, taken, lower, c);
    }
  }

  // ---------------------------------------------------------------- the level below, afterwards

  /** `added` are the tables written for `output`. */
  ghost predicate Written(added: Level, output: L.Stage) {
    && LevelOk(added) && KeyDisjoint(added) && Content(added) == output
  }

  lemma AddedApart(up: Level, down: Level, taken: Level, lower: Level, p: Params, added: Level, t: Table)
    requires Chosen(up, down, taken, lower) && Written(added, Output(InputMap(up, down, taken, lower), p)) && t in added
    ensures Apart(Without(down, lower), t)
  {
    var rest := Without(down, lower);
    var n :| 0 <= n < |added| && added[n] == t;
    forall i, e, f | Held(rest, i, e) && f in t.entries ensures e.cell.key != f.cell.key {
      WithoutMembers(down, lower, rest[i]);
      var j := MemberHeld(rest, down, i, e);
      assert Held(added, n, f);
      HeldInContent(added, n, f);
      assert f.cell in InputMap(up, down, taken, lower);
      OnlyInputs(up, down, taken, lower, f.cell);
      if f.cell in Content(taken) {
        var m := ContentHeld(taken, f.cell);
        StaysApart(up, down, taken, lower, j, e, m, Entry(f.cell, Content(taken)[f.cell]));
      } else {
        var m := ContentHeld(lower, f.cell);
        StaysApart(up, down, taken, lower, j, e, m, Entry(f.cell, Content(lower)[f.cell]));
      }
    }
  }

  /** The new level holds each key in one table, and exactly what the layered store says. */
  lemma MergedLevel(up: Level, down: Level, taken: Level, lower: Level, p: Params, added: Level)
    requires Chosen(up, down, taken, lower) && Written(added, Output(InputMap(up, down, taken, lower), p))
    ensures TablesOk(Without(down, lower) + added) && KeyDisjoint(Without(down, lower) + added)
  {
    var rest := Without(down, lower);
    WithoutDisjoint(down, lower);
    forall t | t in added ensures Apart(rest, t) { AddedApart(up, down, taken, lower, p, added, t); }
    ConcatDisjoint(rest, added);
    forall i | 0 <= i < |rest| ensures TableOk(rest[i]) { WithoutMembers(down, lower, rest[i]); }
  }

  lemma MergedContent(up: Level, down: Level, taken: Level, lower: Level, added: Level, down': Level)
    requires Chosen(up, down, taken, lower) && LevelOk(added)
    requires LevelOk(down') && forall t :: t in down' <==> (t in down && t !in lower) || t in added
    ensures Content(down') == (Content(down) - Content(lower).Keys) + Content(added)
  {
    var m, n := Content(down'), (Content(down) - Content(lower).Keys) + Content(added);
    forall c | c in m ensures c in n && n[c] == m[c] {
      var i := ContentHeld(down', c);
      var e := Entry(c, m[c]);
      if down'[i] in added {
        var j := MemberHeld(down', added, i, e);
        HeldInContent(added, j, e);
      } else {
        StayedContent(up, down, taken, lower, added, down', i, e);
      }
    }
    forall c | c in n ensures c in m {
      if c in Content(added) { SubContent(added, down', c); }
      else { StaysContent(up, down, taken, lower, down', c); }
    }
  }

  lemma StaysContent(up: Level, down: Level, taken: Level, lower: Level, down': Level, c: Cell)
    requires Chosen(up, down, taken, lower) && LevelOk(down') && forall t :: t in down && t !in lower ==> t in down'
    requires c in Content(down) && c !in Content(lower)
    ensures c in Content(down')
  {
    var e := Entry(c, Content(down)[c]);
    var i := ContentHeld(down, c);
    if down[i] in lower {
      var j := MemberHeld(down, lower, i, e);
      HeldInContent(lower, j, e);
      assert false;
    } else {
      var j := MemberHeld(down, down', i, e);
      HeldInContent(down', j, e);
    }
  }

  lemma StayedContent(up: Level, down: Level, taken: Level, lower: Level, added: Level, down': Level, i: int, e: Entry)
    requires Chosen(up, down, taken, lower) && LevelOk(added) && LevelOk(down') && Held(down', i, e)
    requires down'[i] in down && down'[i] !in lower && down'[i] !in added && forall t :: t in added ==> t in down'
    ensures e.cell in Content(down) && e.cell !in Content(lower) && e.cell !in Content(added)
    ensures Content(down)[e.cell] == e.payload
  {
    var j := MemberHeld(down', down, i, e);
    HeldInContent(down, j, e);
    forall c | c in Content(lower) ensures c != e.cell {
      var m := ContentHeld(lower, c);
      StaysApart(up, down, taken, lower, j, e, m, Entry(c, Content(lower)[c]));
    }
    forall c | c in Content(added) ensures c != e.cell {
      var m := ContentHeld(added, c);
      var f := Entry(c, Content(added)[c]);
      var o := MemberHeld(added, down', m, f);
      OneTable(down', i, o, e, f);
    }
  }

  // ---------------------------------------------------------------- removing what moved down

  ghost predicate Older(ts: Level, t: Table) {
    forall i, e, f :: Held(ts, i, e) && f in t.entries && e.cell.key == f.cell.key ==> e.cell.version < f.cell.version
  }

  lemma OldestSnoc(ts: Level, t: Table)
    requires OldestFirst(ts) && Older(ts, t)
    ensures OldestFirst(ts + [t])
  {
    var all := ts + [t];
    forall i, j, e, f | i < j && Held(all, i, e) && Held(all, j, f) && e.cell.key == f.cell.key
      ensures e.cell.version < f.cell.version
    {
      assert Held(ts, i, e);
      if j < |ts| { assert Held(ts, j, f); }
    }
  }

  lemma OldestFront(ts: Level)
    requires OldestFirst(ts) && ts != []
    ensures OldestFirst(ts[..|ts| - 1]) && Older(ts[..|ts| - 1], ts[|ts| - 1])
  {
    var n := |ts| - 1;
    forall i, j, e, f | i < j && Held(ts[..n], i, e) && Held(ts[..n], j, f) && e.cell.key == f.cell.key
      ensures e.cell.version < f.cell.version
    {
      assert Held(ts, i, e) && Held(ts, j, f);
    }
    forall i, e, f | Held(ts[..n], i, e) && f in ts[n].entries && e.cell.key == f.cell.key
      ensures e.cell.version < f.cell.version {
      assert Held(ts, i, e) && Held(ts, n, f);
    }
  }

  lemma {:induction false} WithoutOldest(ts: Level, remove: Level)
    requires LevelOk(ts)
    ensures LevelOk(Without(ts, remove))
  {
    if ts != [] {
      var front, last := ts[..|ts| - 1], ts[|ts| - 1];
      OldestFront(ts);
      WithoutOldest(front, remove);
      var rest := Without(front, remove);
      forall i, e, f | Held(rest, i, e) && f in last.entries && e.cell.key == f.cell.key
        ensures e.cell.version < f.cell.version {
        WithoutMembers(front, remove, rest[i]);
        var j := MemberHeld(rest, front, i, e);
      }
      OldestSnoc(rest, last);
    }
  }

  lemma WithoutContent(ts: Level, remove: Level)
    requires LevelOk(ts) && LevelOk(remove) && LevelOk(Without(ts, remove)) && forall t :: t in remove ==> t in ts
    ensures Content(Without(ts, remove)) == Content(ts) - Content(remove).Keys
  {
    var rest := Without(ts, remove);
    var m, n := Content(rest), Content(ts) - Content(remove).Keys;
    forall t ensures t in rest <==> t in ts && t !in remove { WithoutMembers(ts, remove, t); }
    forall c | c in m ensures c in n && m[c] == n[c] {
      SubContent(rest, ts, c);
      RestNotRemoved(ts, remove, rest, c);
    }
    forall c | c in n ensures c in m {
      var e := Entry(c, n[c]);
      var i := ContentHeld(ts, c);
      NotRemoved(ts, remove, i, e);
      var j := MemberHeld(ts, rest, i, e);
      HeldInContent(rest, j, e);
    }
  }

  lemma NotRemoved(ts: Level, remove: Level, i: int, e: Entry)
    requires LevelOk(remove) && Held(ts, i, e) && e.cell !in Content(remove)
    ensures ts[i] !in remove
  {
    if ts[i] in remove {
      var j := MemberHeld(ts, remove, i, e);
      HeldInContent(remove, j, e);
    }
  }

  lemma RestNotRemoved(ts: Level, remove: Level, rest: Level, c: Cell)
    requires LevelOk(ts) && LevelOk(remove) && LevelOk(rest) && c in Content(rest)
    requires (forall t :: t in remove ==> t in ts) && forall t :: t in rest ==> t in ts && t !in remove
    ensures c !in Content(remove)
  {
    var i := ContentHeld(rest, c);
    var j := MemberHeld(rest, ts, i, Entry(c, Content(rest)[c]));
    forall d | d in Content(remove) ensures d != c {
      var f := Entry(d, Content(remove)[d]);
      var m := ContentHeld(remove, d);
      var o := MemberHeld(remove, ts, m, f);
      OneTable(ts, j, o, Entry(c, Content(rest)[c]), f);
    }
  }

  // ---------------------------------------------------------------- tables for the output

  lemma {:induction false} RunsSorted(runs: seq<Run>)
    requires Sorted(Flatten(runs))
    ensures forall i :: 0 <= i < |runs| ==> Sorted(runs[i])
  {
    if runs != [] {
      var front, last := runs[..|runs| - 1], runs[|runs| - 1];
      var all := Flatten(runs);
      assert forall i :: 0 <= i < |Flatten(front)| ==> all[i] == Flatten(front)[i];
      RunsSorted(front);
      forall i, j | 0 <= i < j < |last| ensures Before(last[i].cell, last[j].cell) {
        assert all[|Flatten(front)| + i] == last[i] && all[|Flatten(front)| + j] == last[j];
      }
      assert forall i :: 0 <= i < |front| ==> runs[i] == front[i];
    }
  }

  function AsTables(runs: seq<Run>): Level {
    seq(|runs|, i requires 0 <= i < |runs| => Table(runs[i]))
  }

  lemma TablesDisjoint(runs: seq<Run>)
    requires Sorted(Flatten(runs)) && NoKeySplit(runs) && forall t :: t in runs ==> t != []
    ensures TablesOk(AsTables(runs)) && KeyDisjoint(AsTables(runs))
  {
    var ts := AsTables(runs);
    RunsSorted(runs);
    forall i | 0 <= i < |ts| ensures TableOk(ts[i]) { assert runs[i] in runs; }
    forall i, j, e, f | i < j && Held(ts, i, e) && Held(ts, j, f) ensures e.cell.key != f.cell.key {
      assert KeysApart(runs[i], runs[j]);
    }
  }

  lemma TablesWritten(runs: seq<Run>, output: L.Stage)
    requires Sorted(Flatten(runs)) && Single(Flatten(runs)) && AsMap(Flatten(runs)) == output
    requires Whole(runs, [])
    ensures Written(AsTables(runs), output)
  {
    var ts := AsTables(runs);
    TablesDisjoint(runs);
    forall c | c in Content(ts) ensures c in output && output[c] == Content(ts)[c] {
      var i := ContentHeld(ts, c);
      FlattenHolds(runs, i, Entry(c, Content(ts)[c]));
    }
    forall c | c in output ensures c in Content(ts) {
      var i := FlattenHeld(runs, Entry(c, output[c]));
      HeldInContent(ts, i, Entry(c, output[c]));
    }
  }

  lemma FlattenHolds(runs: seq<Run>, i: int, e: Entry)
    requires Held(AsTables(runs), i, e)
    ensures e in Flatten(runs)
  {
    assert InTable(runs, i, e);
    FlattenMembers(runs, e);
  }

  lemma FlattenHeld(runs: seq<Run>, e: Entry) returns (i: nat)
    requires e in Flatten(runs)
    ensures Held(AsTables(runs), i, e)
  {
    FlattenMembers(runs, e);
    var j :| InTable(runs, j, e);
    i := j;
  }
}
