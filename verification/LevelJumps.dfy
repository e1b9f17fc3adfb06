/** Why no level may be jumped over: what a merge does to reads when a level between its two levels holds
    keys that move down. */
module LevelJumps {
  import opened Store
  import opened LsmStages
  import opened LsmRefinement

  // ---------------------------------------------------------------- the order of the stages

  /** The newest merged version of a key is kept or buried, never superseded. */
  lemma NewestMerged(l: Lsm, g: Merge, k: Key) returns (y: Cell, under: Ix)
    requires Inv(l) && l.moving.None? && MergeableIfNoJump(l.stages, g, l.now) && HasKey(g.upper, k)
    ensures y in g.upper && y.key == k
    ensures g.to <= under && y in DoInstall(l, g).stages[under]
  {
    var keyed := set c | c in g.upper && c.key == k;
    var some :| some in g.upper && some.key == k;
    assert some in keyed;
    y := Latest(keyed);
    assert y in Inputs(l.stages, g);
    UpperIsNewest(l, g, y);
    under := if y in g.output then g.to else GRAVES;
    if y !in g.output { assert y in Buried(l.stages, g); }
  }

  lemma UpperIsNewest(l: Lsm, g: Merge, y: Cell)
    requires Inv(l) && l.moving.None? && MergeableIfNoJump(l.stages, g, l.now)
    requires y in g.upper && forall d :: d in g.upper && d.key == y.key ==> d.version <= y.version
    ensures forall d :: d in Inputs(l.stages, g) && d.key == y.key ==> d.version <= y.version
  {
    forall d | d in Inputs(l.stages, g) && d.key == y.key ensures d.version <= y.version {
      if d !in g.upper {
        assert Holds(CNewerAbove, l);
        assert Ordered(l, g.from, g.to, y, d);
      }
    }
  }

  lemma Latest(cells: set<Cell>) returns (y: Cell)
    requires cells != {}
    ensures y in cells && forall d :: d in cells ==> d.version <= y.version
  {
    y :| y in cells;
    var rest := cells - {y};
    if rest != {} {
      var z := Latest(rest);
      if z.version > y.version { y := z; }
    }
  }

  lemma NoJumpKeeps(l: Lsm, g: Merge)
    requires Inv(l) && l.moving.None? && MergeableIfNoJump(l.stages, g, l.now) && NoJump(l.stages, g)
    requires g.minReadTs <= l.horizon && forall id :: Reading(l, id) ==> g.minReadTs <= l.readers[id].ts
    ensures NewerAbove(DoInstall(l, g))
  {
    InstallNewerAbove(l, DoInstall(l, g), g);
  }

  lemma OutOfOrder(l: Lsm, a: Ix, b: Ix, x: Cell, y: Cell)
    requires a < b && x in l.stages[a] && y in l.stages[b] && x.key == y.key && x.version < y.version
        && !InTransit(l, a, y)
    ensures !NewerAbove(l)
  {
    assert !Ordered(l, a, b, x, y);
  }

  lemma StagesBetween(l: Lsm, g: Merge, b: Ix)
    requires b != g.to && b != GRAVES
    ensures DoInstall(l, g).stages[b] == l.stages[b]
  {}

  lemma JumpBreaks(l: Lsm, g: Merge, b: Ix, x: Cell)
    requires Inv(l) && l.moving.None? && MergeableIfNoJump(l.stages, g, l.now)
    requires g.from < b < g.to && x in l.stages[b] && HasKey(g.upper, x.key)
    ensures !NewerAbove(DoInstall(l, g))
  {
    var y, under := NewestMerged(l, g, x.key);
    assert y.version > x.version by {
      assert Holds(CNewerAbove, l);
      assert Ordered(l, g.from, b, y, x);
    }
    StagesBetween(l, g, b);
    OutOfOrder(DoInstall(l, g), b, under, x, y);
  }

  /** A merge keeps newer versions above older ones exactly when no level between its two levels
      holds a key that moves down. */
  lemma OrderKeptIffNoJump(l: Lsm, g: Merge)
    requires Inv(l) && l.moving.None? && MergeableIfNoJump(l.stages, g, l.now)
    requires g.minReadTs <= l.horizon && forall id :: Reading(l, id) ==> g.minReadTs <= l.readers[id].ts
    ensures NewerAbove(DoInstall(l, g)) <==> NoJump(l.stages, g)
  {
    if NoJump(l.stages, g) {
      NoJumpKeeps(l, g);
    } else {
      var b: Ix, x :| g.from < b < g.to && x in l.stages[b] && HasKey(g.upper, x.key);
      JumpBreaks(l, g, b, x);
    }
  }

  // ---------------------------------------------------------------- reads

  /** The version that a read finds in a tree that nobody is changing. */
  ghost function FirstHit(s: Stack, k: Key, ts: nat, p: nat): Option<Cell>
    decreases 7 - p
  {
    if p > BOTTOM then None
    else
      var v := Newest(s[p], k, ts);
      if v.Some? then Some(Cell(k, v.value)) else FirstHit(s, k, ts, p + 1)
  }

  ghost predicate Sees(s: Stack, a: Ix, k: Key, ts: nat) {
    exists d :: d in s[a] && d.key == k && d.version <= ts
  }

  lemma {:induction false} HitIs(s: Stack, k: Key, ts: nat, p: nat, b: Ix, c: Cell)
    requires p <= b <= BOTTOM && c in s[b] && c.key == k && c.version <= ts
    requires forall d :: d in s[b] && d.key == k && d.version <= ts ==> d.version <= c.version
    requires forall a: Ix :: p <= a < b ==> !Sees(s, a, k, ts)
    ensures FirstHit(s, k, ts, p) == Some(c)
    decreases b - p
  {
    var v := Newest(s[p], k, ts);
    if p == b {
      assert c == Cell(k, c.version) && v.Some?;
    } else {
      assert !Sees(s, p, k, ts);
      HitIs(s, k, ts, p + 1, b, c);
    }
  }

  lemma {:induction false} HitNone(s: Stack, k: Key, ts: nat, p: nat)
    requires forall a: Ix :: p <= a <= BOTTOM ==> !Sees(s, a, k, ts)
    ensures FirstHit(s, k, ts, p) == None
    decreases 7 - p
  {
    if p <= BOTTOM {
      assert !Sees(s, p, k, ts);
      HitNone(s, k, ts, p + 1);
    }
  }

  lemma {:induction false} HitBy(s: Stack, k: Key, ts: nat, p: nat, b: Ix) returns (a: Ix)
    requires p <= b <= BOTTOM && Sees(s, b, k, ts)
    ensures a <= b && FirstHit(s, k, ts, p).Some? && FirstHit(s, k, ts, p).value in s[a]
    decreases b - p
  {
    var v := Newest(s[p], k, ts);
    if v.Some? {
      a := p;
    } else {
      var d :| d in s[b] && d.key == k && d.version <= ts;
      assert d == Cell(k, d.version);
      a := HitBy(s, k, ts, p + 1, b);
    }
  }

  /** The stages after both critical sections of a merge. */
  ghost function Merged(l: Lsm, g: Merge): Stack {
    DoInstall(l, g).stages[g.from := l.stages[g.from] - g.upper]
  }

  /** The watermark that no snapshot is below afterwards. */
  ghost function NewFloor(l: Lsm, g: Merge): nat {
    Max(l.floor, g.minReadTs)
  }

  /** The read finds the same version as before, or none where it found a dead one. */
  ghost predicate ReadKept(l: Lsm, g: Merge, k: Key, ts: nat) {
    var before, after := FirstHit(l.stages, k, ts, MEM), FirstHit(Merged(l, g), k, ts, MEM);
    after == before || (after.None? && before.value in l.flat && Dead(l.flat[before.value], l.now))
  }

  /** A version that a snapshot may still see, and that no stage further up holds, moves down past a
      version of its key. */
  ghost predicate JumpsVisibly(l: Lsm, g: Merge) {
    exists b: Ix, x, y :: Overtakes(l, g, b, x, y)
  }

  ghost predicate Overtakes(l: Lsm, g: Merge, b: Ix, x: Cell, y: Cell) {
    && g.from < b < g.to && x in l.stages[b] && y in g.upper && x.key == y.key
    && !Superseded(l.flat, NewFloor(l, g), y) && forall a: Ix :: a < g.from ==> y !in l.stages[a]
  }

  ghost predicate Merges(l: Lsm, g: Merge) {
    Inv(l) && l.moving.None? && MergeableIfNoJump(l.stages, g, l.now)
  }

  /** `c` is the newest version at `ts`, and stage `b` is the first that holds it. */
  ghost predicate FirstAt(l: Lsm, k: Key, ts: nat, c: Cell, b: Ix) {
    && Newest(l.flat, k, ts) == Some(c.version) && c.key == k
    && c in l.stages[b] && forall a: Ix :: a < b ==> c !in l.stages[a]
  }

  lemma FindFirst(l: Lsm, c: Cell, b: Ix) returns (a: Ix)
    requires c in l.stages[b]
    ensures a <= b && c in l.stages[a] && forall i: Ix :: i < a ==> c !in l.stages[i]
    decreases b
  {
    if b > 0 && exists i: Ix :: i < b && c in l.stages[i] {
      var i: Ix :| i < b && c in l.stages[i];
      a := FindFirst(l, c, i);
    } else {
      a := b;
    }
  }

  /** Every version in the tree is known to the flat store. */
  lemma InFlat(l: Lsm, a: Ix, d: Cell)
    requires Inv(l) && d in l.stages[a]
    ensures d in l.flat
  {
    assert Holds(CSourced, l);
    assert SourcedAt(l.stages, l.flat, l.clock, a, d);
  }

  lemma NothingBefore(l: Lsm, k: Key, ts: nat, c: Cell, b: Ix, a: Ix)
    requires Inv(l) && FirstAt(l, k, ts, c, b) && a < b
    ensures !Sees(l.stages, a, k, ts)
  {
    forall d | d in l.stages[a] && d.key == k ensures d.version > ts {
      InFlat(l, a, d);
      assert Holds(CNewerAbove, l) && Ordered(l, a, b, d, c);
      assert d == Cell(k, d.version);
    }
  }

  /** What the merged stages hold the old ones held. */
  lemma MergedFrom(l: Lsm, g: Merge, a: Ix, d: Cell)
    requires Merges(l, g) && d in Merged(l, g)[a] && a <= BOTTOM
    ensures d in l.stages[a] || (a == g.to && d in l.stages[g.from])
    ensures a == g.from ==> d !in g.upper
  {}

  lemma NewestInFlat(l: Lsm, k: Key, ts: nat, c: Cell, a: Ix, d: Cell)
    requires Inv(l) && Newest(l.flat, k, ts) == Some(c.version) && d in l.stages[a] && d.key == k && d.version <= ts
    ensures d.version <= c.version
  {
    InFlat(l, a, d);
    assert d == Cell(k, d.version);
  }

  /** The read finds `c`, if the first stage that holds it is still there and nothing came before. */
  lemma StillFirst(l: Lsm, g: Merge, k: Key, ts: nat, c: Cell, b: Ix, b': Ix)
    requires Merges(l, g) && FirstAt(l, k, ts, c, b) && b' <= BOTTOM && c in Merged(l, g)[b']
    requires forall a: Ix :: a < b' ==> !Sees(Merged(l, g), a, k, ts)
    ensures FirstHit(Merged(l, g), k, ts, MEM) == Some(c)
  {
    var s := Merged(l, g);
    forall d | d in s[b'] && d.key == k && d.version <= ts ensures d.version <= c.version {
      MergedFrom(l, g, b', d);
      if d in l.stages[b'] { NewestInFlat(l, k, ts, c, b', d); } else { NewestInFlat(l, k, ts, c, g.from, d); }
    }
    HitIs(s, k, ts, MEM, b', c);
  }

  lemma BeforeIs(l: Lsm, k: Key, ts: nat, c: Cell, b: Ix)
    requires Inv(l) && FirstAt(l, k, ts, c, b)
    ensures FirstHit(l.stages, k, ts, MEM) == if b <= BOTTOM then Some(c) else None
  {
    forall a: Ix | a < b ensures !Sees(l.stages, a, k, ts) { NothingBefore(l, k, ts, c, b, a); }
    if b <= BOTTOM {
      forall d | d in l.stages[b] && d.key == k && d.version <= ts ensures d.version <= c.version {
        NewestInFlat(l, k, ts, c, b, d);
      }
      HitIs(l.stages, k, ts, MEM, b, c);
    } else {
      HitNone(l.stages, k, ts, MEM);
    }
  }

  /** Nothing comes in front of the first stage that holds the newest version. */
  lemma MergedSees(l: Lsm, g: Merge, k: Key, ts: nat, c: Cell, b: Ix, a: Ix)
    requires Merges(l, g) && FirstAt(l, k, ts, c, b) && a < b && a <= BOTTOM && (a == g.to ==> g.from < b)
    ensures !Sees(Merged(l, g), a, k, ts)
  {
    NothingBefore(l, k, ts, c, b, a);
    if a == g.to { NothingBefore(l, k, ts, c, b, g.from); }
    forall d | d in Merged(l, g)[a] && d.key == k ensures d.version > ts {
      MergedFrom(l, g, a, d);
    }
  }

  /** The newest version of a key that is merged is kept, or dead and buried with all of its key. */
  lemma KeptOrBuried(l: Lsm, g: Merge, c: Cell)
    requires Merges(l, g) && c in Inputs(l.stages, g) && !Superseded(l.flat, NewFloor(l, g), c)
    ensures || c in g.output
            || (g.to == BOTTOM && c in l.flat && Dead(l.flat[c], l.now) && forall d :: d in g.output ==> d.key != c.key)
  {
    if c !in g.output {
      if Superseded(Inputs(l.stages, g), g.minReadTs, c) { SupersededInFlat(l, g, c); }
      assert Holds(CSourced, l) && Holds(CShape, l);
      assert SourcedAt(l.stages, l.flat, l.clock, g.from, c) && SourcedAt(l.stages, l.flat, l.clock, g.to, c);
    }
  }

  // ---------------------------------------------------------------- merges that leave reads alone

  /** The first stage that holds the newest version is not touched, or loses nothing of the key. */
  lemma StaysPut(l: Lsm, g: Merge, k: Key, ts: nat, c: Cell, b: Ix)
    requires Merges(l, g) && FirstAt(l, k, ts, c, b) && b <= BOTTOM && c in Merged(l, g)[b]
    ensures ReadKept(l, g, k, ts)
  {
    BeforeIs(l, k, ts, c, b);
    forall a: Ix | a < b ensures !Sees(Merged(l, g), a, k, ts) { MergedSees(l, g, k, ts, c, b, a); }
    StillFirst(l, g, k, ts, c, b, b);
  }

  /** Nothing of a key is left in the level below once its newest version is buried. */
  lemma AllBuried(l: Lsm, g: Merge, c: Cell, k: Key, ts: nat)
    requires Merges(l, g) && c in Inputs(l.stages, g) && c.key == k && (forall x :: x in g.output ==> x.key != k)
    ensures !Sees(Merged(l, g), g.to, k, ts)
  {
    forall d | d in Merged(l, g)[g.to] ensures d.key != k {
      MergedTo(l, g, d);
      LowerWhole(l, g, c, d);
    }
  }

  lemma MergedTo(l: Lsm, g: Merge, d: Cell)
    requires Merges(l, g) && d in Merged(l, g)[g.to]
    ensures d in g.output || (d in l.stages[g.to] && d !in g.lower)
  {}

  /** Every version in the level below of a key that is merged is merged. */
  lemma LowerWhole(l: Lsm, g: Merge, c: Cell, d: Cell)
    requires Merges(l, g) && c in Inputs(l.stages, g)
    ensures d in l.stages[g.to] && d.key == c.key ==> d in g.lower
  {
    assert c in g.upper || c in g.lower;
    assert HasKey(g.upper, c.key) || HasKey(g.lower, c.key);
  }

  /** The newest version is in the level below and is buried there. */
  lemma BuriedBelow(l: Lsm, g: Merge, k: Key, ts: nat, c: Cell)
    requires Merges(l, g) && FirstAt(l, k, ts, c, g.to) && NewFloor(l, g) <= ts && c !in Merged(l, g)[g.to]
    ensures ReadKept(l, g, k, ts)
  {
    BeforeIs(l, k, ts, c, g.to);
    assert c in Inputs(l.stages, g);
    KeptOrBuried(l, g, c);
    forall a: Ix | a <= BOTTOM ensures !Sees(Merged(l, g), a, k, ts) {
      if a < g.to { MergedSees(l, g, k, ts, c, g.to, a); } else { AllBuried(l, g, c, k, ts); }
    }
    HitNone(Merged(l, g), k, ts, MEM);
  }

  /** The newest version moves down, and no level in between has its key. */
  lemma MovesDown(l: Lsm, g: Merge, k: Key, ts: nat, c: Cell)
    requires Merges(l, g) && FirstAt(l, k, ts, c, g.from) && NewFloor(l, g) <= ts && c in g.upper && !JumpsVisibly(l, g)
    ensures ReadKept(l, g, k, ts)
  {
    var s := Merged(l, g);
    BeforeIs(l, k, ts, c, g.from);
    KeptOrBuried(l, g, c);
    forall a: Ix | a < g.to ensures !Sees(s, a, k, ts) { NoneAbove(l, g, k, ts, c, a); }
    if c in g.output {
      StillFirst(l, g, k, ts, c, g.from, g.to);
    } else {
      forall a: Ix | a <= BOTTOM ensures !Sees(s, a, k, ts) {
        if a == g.to { AllBuried(l, g, c, k, ts); }
      }
      HitNone(s, k, ts, MEM);
    }
  }

  lemma NoneAbove(l: Lsm, g: Merge, k: Key, ts: nat, c: Cell, a: Ix)
    requires Merges(l, g) && FirstAt(l, k, ts, c, g.from) && NewFloor(l, g) <= ts && c in g.upper && !JumpsVisibly(l, g)
    requires a < g.to
    ensures !Sees(Merged(l, g), a, k, ts)
  {
    if a < g.from {
      MergedSees(l, g, k, ts, c, g.from, a);
    } else {
      forall d | d in Merged(l, g)[a] ensures d.key != k {
        MergedFrom(l, g, a, d);
        if a == g.from { UpperWhole(l, g, c, d); } else { assert !Overtakes(l, g, a, d, c); }
      }
    }
  }

  lemma UpperWhole(l: Lsm, g: Merge, c: Cell, d: Cell)
    requires Merges(l, g) && c in g.upper
    ensures d in l.stages[g.from] && d.key == c.key ==> d in g.upper
  {
    assert HasKey(g.upper, c.key);
  }

  lemma KeptWithoutJump(l: Lsm, g: Merge, k: Key, ts: nat)
    requires Merges(l, g) && NewFloor(l, g) <= ts && !JumpsVisibly(l, g)
    ensures ReadKept(l, g, k, ts)
  {
    var v := Newest(l.flat, k, ts);
    if v.None? {
      NothingAtAll(l, g, k, ts);
    } else {
      var c := Cell(k, v.value);
      NewestSomewhere(l, k, ts);
      var some: Ix :| c in l.stages[some];
      var b := FindFirst(l, c, some);
      KeptAt(l, g, k, ts, c, b);
    }
  }

  lemma NothingAtAll(l: Lsm, g: Merge, k: Key, ts: nat)
    requires Merges(l, g) && Newest(l.flat, k, ts).None?
    ensures ReadKept(l, g, k, ts)
  {
    forall a: Ix, d | d in l.stages[a] && d.key == k ensures d.version > ts {
      InFlat(l, a, d);
      assert d == Cell(k, d.version);
    }
    forall a: Ix | a <= BOTTOM ensures !Sees(l.stages, a, k, ts) && !Sees(Merged(l, g), a, k, ts) {
      forall d | d in Merged(l, g)[a] && d.key == k ensures d.version > ts { MergedFrom(l, g, a, d); }
    }
    HitNone(l.stages, k, ts, MEM);
    HitNone(Merged(l, g), k, ts, MEM);
  }

  lemma KeptAt(l: Lsm, g: Merge, k: Key, ts: nat, c: Cell, b: Ix)
    requires Merges(l, g) && FirstAt(l, k, ts, c, b) && NewFloor(l, g) <= ts && !JumpsVisibly(l, g)
    ensures ReadKept(l, g, k, ts)
  {
    if b > BOTTOM {
      BeforeIs(l, k, ts, c, b);
      forall a: Ix | a <= BOTTOM ensures !Sees(Merged(l, g), a, k, ts) { MergedSees(l, g, k, ts, c, b, a); }
      HitNone(Merged(l, g), k, ts, MEM);
    } else if c in Merged(l, g)[b] {
      StaysPut(l, g, k, ts, c, b);
    } else if b == g.to {
      BuriedBelow(l, g, k, ts, c);
    } else {
      assert b == g.from && c in g.upper;
      MovesDown(l, g, k, ts, c);
    }
  }

  // ---------------------------------------------------------------- merges that do not

  lemma JumpHides(l: Lsm, g: Merge, b: Ix, x: Cell, y: Cell)
    requires Merges(l, g) && Overtakes(l, g, b, x, y)
    ensures !ReadKept(l, g, y.key, Max(NewFloor(l, g), y.version))
  {
    var k, ts := y.key, Max(NewFloor(l, g), y.version);
    OvertakenIsNewest(l, g, b, x, y);
    BeforeIs(l, k, ts, y, g.from);
    OvertakesOlder(l, g, b, x, y);
    assert Sees(Merged(l, g), b, k, ts);
    var a := HitBy(Merged(l, g), k, ts, MEM, b);
    GoneAbove(l, g, y, a);
  }

  lemma OvertakenIsNewest(l: Lsm, g: Merge, b: Ix, x: Cell, y: Cell)
    requires Merges(l, g) && Overtakes(l, g, b, x, y)
    ensures FirstAt(l, y.key, Max(NewFloor(l, g), y.version), y, g.from)
  {
    InFlat(l, g.from, y);
    NewestBy(l.flat, NewFloor(l, g), y);
  }

  lemma NewestBy(flat: Stage, floor: nat, c: Cell)
    requires c in flat && !Superseded(flat, floor, c)
    ensures Newest(flat, c.key, Max(floor, c.version)) == Some(c.version)
  {
    var v := Newest(flat, c.key, Max(floor, c.version));
    assert c == Cell(c.key, c.version) && v.Some? && v.value >= c.version;
    assert Cell(c.key, v.value) in flat;
  }

  lemma OvertakesOlder(l: Lsm, g: Merge, b: Ix, x: Cell, y: Cell)
    requires Merges(l, g) && Overtakes(l, g, b, x, y)
    ensures x.version < y.version && x in Merged(l, g)[b]
  {
    assert Holds(CNewerAbove, l) && Ordered(l, g.from, b, y, x);
  }

  lemma GoneAbove(l: Lsm, g: Merge, y: Cell, a: Ix)
    requires Merges(l, g) && y in g.upper && a < g.to && forall i: Ix :: i < g.from ==> y !in l.stages[i]
    ensures y !in Merged(l, g)[a]
  {
    NotBetween(l, g, y, a);
    if y in Merged(l, g)[a] { MergedFrom(l, g, a, y); }
  }

  lemma NotBetween(l: Lsm, g: Merge, y: Cell, a: Ix)
    requires Merges(l, g) && y in g.upper
    ensures a > g.from ==> y !in l.stages[a]
  {
    assert Holds(CNewerAbove, l) && Ordered(l, g.from, a, y, y);
  }

  /** A merge leaves every read at or above the watermark as it was if and only if it moves no version
      that can still be seen down past another one of its key. */
  lemma ReadsKeptIff(l: Lsm, g: Merge)
    requires Merges(l, g)
    ensures (forall k, ts: nat :: NewFloor(l, g) <= ts ==> ReadKept(l, g, k, ts)) <==> !JumpsVisibly(l, g)
  {
    if JumpsVisibly(l, g) {
      var b: Ix, x, y :| Overtakes(l, g, b, x, y);
      JumpHides(l, g, b, x, y);
    } else {
      forall k, ts: nat | NewFloor(l, g) <= ts ensures ReadKept(l, g, k, ts) { KeptWithoutJump(l, g, k, ts); }
    }
  }

  // ---------------------------------------------------------------- a jump that is reached

  ghost predicate RunTo(states: seq<Lsm>, acts: seq<Action>, l: Lsm) {
    Run(states, acts) && states[|acts|] == l
  }

  ghost predicate Reached(l: Lsm) {
    exists states, acts :: RunTo(states, acts, l)
  }

  lemma Go(l: Lsm, a: Action) returns (l': Lsm)
    requires Reached(l) && Enabled(l, a)
    ensures Reached(l') && l' == Step(l, a)
  {
    l' := Step(l, a);
    var states, acts :| RunTo(states, acts, l);
    var ss, as' := states + [l'], acts + [a];
    forall i | 0 <= i < |as'| ensures Enabled(ss[i], as'[i]) && ss[i + 1] == Step(ss[i], as'[i]) {
      if i < |acts| { assert ss[i] == states[i] && ss[i + 1] == states[i + 1] && as'[i] == acts[i]; }
    }
    assert RunTo(ss, as', l');
  }

  ghost predicate Idle(l: Lsm) {
    !l.rotating && !l.flushed && l.moving.None? && l.stages[MEM] == map[] && l.stages[IMM] == map[]
  }

  /** A version is inserted and flushed into an empty level 0. */
  lemma FlushOne(l: Lsm, c: Cell, p: Payload) returns (l': Lsm)
    requires Reached(l) && Idle(l) && l.stages[L0] == map[] && c.version > l.horizon
    requires forall d :: d in l.flat && d.key == c.key ==> d.version < c.version
    ensures Reached(l') && Idle(l')
    ensures l' == l.(stages := l.stages[L0 := map[c := p]], flat := l.flat[c := p], horizon := c.version)
  {
    var l1 := Go(l, Insert(c, p));
    var l2 := Go(l1, RaiseHorizon(c.version));
    var l3 := Go(l2, RotateImm);
    var l4 := Go(l3, RotateMem);
    var l5 := Go(l4, InstallL0);
    l' := Go(l5, ClearImm);
    assert l5.stages[L0] == map[c := p];
    forall i: Ix ensures l'.stages[i] == l.stages[L0 := map[c := p]][i] {}
    assert l'.stages == l.stages[L0 := map[c := p]];
  }

  /** Level 0, that is one version, goes into an empty level 1. */
  lemma SinkOne(l: Lsm, c: Cell, p: Payload) returns (l': Lsm)
    requires Reached(l) && Idle(l) && l.stages[L0] == map[c := p] && l.stages[3] == map[] && l.readers == map[]
    ensures Reached(l') && Idle(l')
    ensures l' == l.(stages := l.stages[L0 := map[]][3 := map[c := p]], floor := l'.floor, clock := l'.clock)
    ensures l'.floor == l.floor
  {
    var g := Merge(L0, 3, {c}, {}, map[c := p], 0);
    OneMerges(l, c, p);
    var l1 := Go(l, Install(g));
    l' := Go(l1, Remove);
    assert l1.stages[3] == map[c := p] && l'.stages[L0] == map[];
    forall i: Ix ensures l'.stages[i] == l.stages[L0 := map[]][3 := map[c := p]][i] {}
    assert l'.stages == l.stages[L0 := map[]][3 := map[c := p]];
  }

  lemma OneMerges(l: Lsm, c: Cell, p: Payload)
    requires Idle(l) && l.stages[L0] == map[c := p] && l.stages[3] == map[] && l.readers == map[]
    ensures Enabled(l, Install(Merge(L0, 3, {c}, {}, map[c := p], 0)))
  {
    var g := Merge(L0, 3, {c}, {}, map[c := p], 0);
    assert Inputs(l.stages, g) == map[c := p];
    assert Buried(l.stages, g) == map[];
  }

  /** A run that reaches a tree in which a jump makes a read stale: version 2 of a key moves from level 0 to
      level 2, past version 1 in level 1, and a read at timestamp 2 then meets version 1 first. */
  lemma JumpReadsStale() returns (l: Lsm, g: Merge, k: Key)
    ensures Reached(l) && Merges(l, g) && JumpsVisibly(l, g) && NewFloor(l, g) <= 2 == l.horizon
    ensures FirstHit(l.stages, k, 2, MEM) == Some(Cell(k, 2)) && FirstHit(Merged(l, g), k, 2, MEM) == Some(Cell(k, 1))
    ensures Cell(k, 1) in l.flat && Cell(k, 2) in l.flat && l.flat[Cell(k, 1)].value != l.flat[Cell(k, 2)].value
  {
    k := [];
    var c1, c2, older, newer := Cell(k, 1), Cell(k, 2), Payload([1], false, 0), Payload([2], false, 0);
    assert RunTo([Empty], [], Empty);
    var l1 := FlushOne(Empty, c1, older);
    var l2 := SinkOne(l1, c1, older);
    l := FlushOne(l2, c2, newer);
    g := Merge(L0, 4, {c2}, {}, map[c2 := newer], 0);
    ReachedInv(l);
    StaleOne(l, g, c1, older, c2, newer);
  }

  lemma ReachedInv(l: Lsm)
    requires Reached(l)
    ensures Inv(l)
  {
    var states, acts :| RunTo(states, acts, l);
    InvRun(states, acts, |acts|);
  }

  lemma StaleOne(l: Lsm, g: Merge, c1: Cell, older: Payload, c2: Cell, newer: Payload)
    requires Inv(l) && Idle(l) && c1 == Cell([], 1) && c2 == Cell([], 2) && l.floor == 0
    requires l.flat == map[c1 := older, c2 := newer] && !newer.deleted && newer.expiresAt == 0
    requires l.stages[L0] == map[c2 := newer] && l.stages[3] == map[c1 := older] && l.stages[4] == map[]
    requires g == Merge(L0, 4, {c2}, {}, map[c2 := newer], 0)
    ensures Merges(l, g) && JumpsVisibly(l, g)
    ensures FirstHit(l.stages, [], 2, MEM) == Some(c2) && FirstHit(Merged(l, g), [], 2, MEM) == Some(c1)
  {
    assert Inputs(l.stages, g) == map[c2 := newer];
    assert Overtakes(l, g, 3, c1, c2);
    OvertakenIsNewest(l, g, 3, c1, c2);
    BeforeIs(l, [], 2, c2, L0);
    var s := Merged(l, g);
    assert s[L0] == map[] && s[3] == map[c1 := older] && s[MEM] == map[] && s[IMM] == map[];
    HitIs(s, [], 2, MEM, 3, c1);
  }
}
