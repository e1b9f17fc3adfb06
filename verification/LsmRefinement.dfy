/** Whatever maintenance is going on, a read that visits the stages one at a time returns the
    newest version of the whole store at its timestamp. */
module LsmRefinement {
  import opened Store
  import opened LsmStages

  // ---------------------------------------------------------------- invariant

  ghost predicate Shape(l: Lsm) {
    && (l.rotating ==> l.stages[IMM] == l.stages[MEM] && !l.flushed)
    && (l.moving.Some? ==> MoveClosed(l.stages, l.moving.value))
    && (forall id :: Reading(l, id) ==> l.readers[id].progress.stage <= BOTTOM)
    && l.floor <= l.horizon && l.clock <= l.now
    && (forall c :: c in l.stages[GRAVES] ==> Dead(l.stages[GRAVES][c], l.clock))
  }

  ghost predicate MoveClosed(s: Stack, m: Move) {
    && L0 <= m.from < m.to <= BOTTOM
    && m.cells <= s[m.from].Keys
    && forall c :: c in s[m.from] && HasKey(m.cells, c.key) ==> c in m.cells
  }

  /** Nothing is made up: what a stage holds was inserted, or stands for what was. */
  ghost predicate SourcedAt(s: Stack, flat: Stage, clock: int, a: Ix, c: Cell) {
    c in s[a] ==> c in flat && StandsFor(flat[c], s[a][c], clock)
  }

  ghost predicate Sourced(s: Stack, flat: Stage, clock: int) {
    forall a: Ix, c :: SourcedAt(s, flat, clock, a, c)
  }

  /** `c` is about to be removed from stage `a`, having been copied further down. */
  ghost predicate InTransit(l: Lsm, a: Ix, c: Cell) {
    || (a == MEM && l.rotating)
    || (a == IMM && l.flushed)
    || (l.moving.Some? && a == l.moving.value.from && c in l.moving.value.cells)
  }

  ghost predicate Kept(l: Lsm, c: Cell) {
    exists a: Ix :: c in l.stages[a] && !InTransit(l, a, c)
  }

  ghost predicate NothingLost(l: Lsm) {
    forall c :: c in l.flat ==> Kept(l, c) || Superseded(l.flat, l.floor, c)
  }

  /** An earlier stage holds newer versions of a key, copies in transit aside. */
  ghost predicate Ordered(l: Lsm, a: Ix, b: Ix, c: Cell, d: Cell) {
    a < b && c in l.stages[a] && d in l.stages[b] && c.key == d.key ==>
      d.version < c.version || (d in l.stages[a] && InTransit(l, a, d))
  }

  ghost predicate NewerAbove(l: Lsm) {
    forall a: Ix, b: Ix, c, d :: Ordered(l, a, b, c, d)
  }

  /** A reader has left nothing behind that it should have returned. */
  ghost predicate OnTrack(l: Lsm, r: Reader)
    requires r.progress.At?
  {
    && l.floor <= r.ts <= l.horizon
    && forall a: Ix, c :: a < r.progress.stage && c in l.stages[a] && c.key == r.key ==> c.version > r.ts
  }

  ghost predicate ReadersOnTrack(l: Lsm) {
    forall id :: Reading(l, id) ==> OnTrack(l, l.readers[id])
  }

  datatype Clause = CShape | CSourced | CNothingLost | CNewerAbove | CReaders

  ghost predicate Holds(c: Clause, l: Lsm) {
    match c
    case CShape => Shape(l)
    case CSourced => Sourced(l.stages, l.flat, l.clock)
    case CNothingLost => NothingLost(l)
    case CNewerAbove => NewerAbove(l)
    case CReaders => ReadersOnTrack(l)
  }

  ghost predicate Inv(l: Lsm) {
    forall c: Clause :: Holds(c, l)
  }

  lemma InvEmpty()
    ensures Inv(Empty)
  {
    forall c: Clause ensures Holds(c, Empty) { match c { case _ => } }
  }

  // ---------------------------------------------------------------- what a read returns

  /** The newest version at a timestamp no compaction has overtaken is still in the tree, below
      everything the reader has passed, or it was dead and is buried. */
  lemma NewestIsBelow(l: Lsm, r: Reader) returns (a: Ix)
    requires Inv(l) && r.progress.At? && OnTrack(l, r) && Newest(l.flat, r.key, r.ts).Some?
    ensures r.progress.stage <= a && Cell(r.key, Newest(l.flat, r.key, r.ts).value) in l.stages[a]
  {
    var c := Cell(r.key, Newest(l.flat, r.key, r.ts).value);
    assert Holds(CNothingLost, l);
    assert !Superseded(l.flat, l.floor, c);
    a :| c in l.stages[a] && !InTransit(l, a, c);
  }

  /** A hit in the stage a reader has reached is the newest version of the whole store. */
  lemma HitIsNewest(l: Lsm, r: Reader, v: nat)
    requires Inv(l) && r.progress.At? && OnTrack(l, r)
    requires Newest(l.stages[r.progress.stage], r.key, r.ts) == Some(v)
    ensures Newest(l.flat, r.key, r.ts) == Some(v)
  {
    var p := r.progress.stage;
    assert Cell(r.key, v) in l.flat by {
      assert Holds(CSourced, l);
      assert SourcedAt(l.stages, l.flat, l.clock, p, Cell(r.key, v));
    }
    var w := Newest(l.flat, r.key, r.ts).value;
    var a := NewestIsBelow(l, r);
    if a != p {
      assert Holds(CNewerAbove, l);
      assert Ordered(l, p, a, Cell(r.key, v), Cell(r.key, w));
    }
  }

  /** What a read returns is what the flat store holds: the only thing it can miss is dead. */
  lemma VisitAnswers(l: Lsm, r: Reader)
    requires Inv(l) && r.progress.At? && r.progress.stage <= BOTTOM && OnTrack(l, r)
    ensures Visit(l, r).progress.Returned? ==>
              Visit(l, r).progress.answer == ObserveCell(Lookup(l.flat, r.key, r.ts), l.now)
    ensures Visit(l, r).progress.At? ==>
              Visit(l, r).progress.stage <= BOTTOM && OnTrack(l, Visit(l, r))
  {
    var p := r.progress.stage;
    assert Holds(CShape, l) && Holds(CSourced, l);
    var hit := Newest(l.stages[p], r.key, r.ts);
    if hit.Some? {
      HitIsNewest(l, r, hit.value);
      assert SourcedAt(l.stages, l.flat, l.clock, p, Cell(r.key, hit.value));
    } else if p == BOTTOM && Newest(l.flat, r.key, r.ts).Some? {
      var a := NewestIsBelow(l, r);
      assert a == GRAVES;
      assert SourcedAt(l.stages, l.flat, l.clock, a, Cell(r.key, Newest(l.flat, r.key, r.ts).value));
    }
  }

  // ---------------------------------------------------------------- every step keeps the invariant

  lemma StepInsert(l: Lsm, c: Cell, p: Payload)
    requires Inv(l) && Enabled(l, Insert(c, p))
    ensures Inv(Step(l, Insert(c, p)))
  {
    var l' := Step(l, Insert(c, p));
    forall x: Clause ensures Holds(x, l') {
      match x {
        case CShape => assert Holds(CShape, l);
        case CSourced => InsertSourced(l, l', c, p);
        case CNothingLost => InsertNothingLost(l, l', c, p);
        case CNewerAbove => InsertNewerAbove(l, l', c, p);
        case CReaders => InsertReaders(l, l', c, p);
      }
    }
  }

  lemma InsertSourced(l: Lsm, l': Lsm, c: Cell, p: Payload)
    requires Inv(l) && Enabled(l, Insert(c, p)) && l' == Step(l, Insert(c, p))
    ensures Sourced(l'.stages, l'.flat, l'.clock)
  {
    assert Holds(CSourced, l);
    forall a: Ix, d ensures SourcedAt(l'.stages, l'.flat, l'.clock, a, d) {
      assert SourcedAt(l.stages, l.flat, l.clock, a, d);
    }
  }

  /** Stages that only lose cells or take them over from one another stay sourced. */
  lemma StillSourced(l: Lsm, l': Lsm)
    requires Sourced(l.stages, l.flat, l.clock) && l'.flat == l.flat && l'.clock == l.clock
    requires forall a: Ix, c :: c in l'.stages[a] ==>
               || (c in l.stages[a] && l'.stages[a][c] == l.stages[a][c])
               || (c in l.stages[MEM] && l'.stages[a][c] == l.stages[MEM][c])
               || (c in l.stages[IMM] && l'.stages[a][c] == l.stages[IMM][c])
    ensures Sourced(l'.stages, l'.flat, l'.clock)
  {
    forall a: Ix, d ensures SourcedAt(l'.stages, l'.flat, l'.clock, a, d) {
      assert SourcedAt(l.stages, l.flat, l.clock, a, d) && SourcedAt(l.stages, l.flat, l.clock, MEM, d)
          && SourcedAt(l.stages, l.flat, l.clock, IMM, d);
    }
  }

  lemma InsertNothingLost(l: Lsm, l': Lsm, c: Cell, p: Payload)
    requires Inv(l) && Enabled(l, Insert(c, p)) && l' == Step(l, Insert(c, p))
    ensures NothingLost(l')
  {
    assert Holds(CNothingLost, l) && Holds(CShape, l);
    forall d | d in l'.flat ensures Kept(l', d) || Superseded(l'.flat, l'.floor, d) {
      if d == c {
        assert c in l'.stages[MEM] && !InTransit(l', MEM, c);
      } else if Kept(l, d) {
        var a: Ix :| d in l.stages[a] && !InTransit(l, a, d);
        assert d in l'.stages[a] && !InTransit(l', a, d);
      } else {
        var v :| d.version < v <= l.floor && Cell(d.key, v) in l.flat;
        assert Cell(d.key, v) in l'.flat;
      }
    }
  }

  lemma InsertNewerAbove(l: Lsm, l': Lsm, c: Cell, p: Payload)
    requires Inv(l) && Enabled(l, Insert(c, p)) && l' == Step(l, Insert(c, p))
    ensures NewerAbove(l')
  {
    forall a: Ix, b: Ix, x, y ensures Ordered(l', a, b, x, y) {
      assert Holds(CNewerAbove, l) && Holds(CSourced, l) && Holds(CShape, l);
      assert Ordered(l, a, b, x, y) && SourcedAt(l.stages, l.flat, l.clock, b, y);
    }
  }

  lemma InsertReaders(l: Lsm, l': Lsm, c: Cell, p: Payload)
    requires Inv(l) && Enabled(l, Insert(c, p)) && l' == Step(l, Insert(c, p))
    ensures ReadersOnTrack(l')
  {
    assert Holds(CReaders, l);
    forall id | Reading(l', id) ensures OnTrack(l', l'.readers[id]) {
      assert OnTrack(l, l.readers[id]);
    }
  }

  lemma StepRotateImm(l: Lsm)
    requires Inv(l) && Enabled(l, RotateImm)
    ensures Inv(Step(l, RotateImm))
  {
    var l' := Step(l, RotateImm);
    assert Holds(CShape, l);
    forall x: Clause ensures Holds(x, l') {
      match x {
        case CShape =>
        case CSourced => assert Holds(CSourced, l); StillSourced(l, l');
        case CNothingLost =>
          assert Holds(CNothingLost, l);
          forall d | d in l'.flat ensures Kept(l', d) || Superseded(l'.flat, l'.floor, d) {
            if Kept(l, d) {
              var a: Ix :| d in l.stages[a] && !InTransit(l, a, d);
              var a' := if a == MEM then IMM else a;
              assert d in l'.stages[a'] && !InTransit(l', a', d);
            }
          }
        case CNewerAbove =>
          forall a: Ix, b: Ix, x, y ensures Ordered(l', a, b, x, y) {
            assert Holds(CNewerAbove, l);
            assert Ordered(l, a, b, x, y) && Ordered(l, MEM, b, x, y);
          }
        case CReaders =>
          assert Holds(CReaders, l);
          forall id | Reading(l', id) ensures OnTrack(l', l'.readers[id]) {
            assert OnTrack(l, l.readers[id]);
          }
      }
    }
  }

  lemma StepRotateMem(l: Lsm)
    requires Inv(l) && Enabled(l, RotateMem)
    ensures Inv(Step(l, RotateMem))
  {
    var l' := Step(l, RotateMem);
    assert Holds(CShape, l);
    forall x: Clause ensures Holds(x, l') {
      match x {
        case CShape =>
        case CSourced => assert Holds(CSourced, l); StillSourced(l, l');
        case CNothingLost => assert Holds(CNothingLost, l); LessLost(l, l');
        case CNewerAbove =>
          forall a: Ix, b: Ix, x, y ensures Ordered(l', a, b, x, y) {
            assert Holds(CNewerAbove, l);
            assert Ordered(l, a, b, x, y);
          }
        case CReaders => assert Holds(CReaders, l); SmallerReaders(l, l');
      }
    }
  }

  /** Removing only what is in transit loses nothing. */
  lemma LessLost(l: Lsm, l': Lsm)
    requires NothingLost(l) && l'.flat == l.flat && l'.floor == l.floor
    requires forall a: Ix, c :: c in l.stages[a] && !InTransit(l, a, c) ==> c in l'.stages[a] && !InTransit(l', a, c)
    ensures NothingLost(l')
  {
    forall d | d in l'.flat ensures Kept(l', d) || Superseded(l'.flat, l'.floor, d) {
      if Kept(l, d) {
        var a: Ix :| d in l.stages[a] && !InTransit(l, a, d);
        assert d in l'.stages[a] && !InTransit(l', a, d);
      }
    }
  }

  lemma SmallerReaders(l: Lsm, l': Lsm)
    requires ReadersOnTrack(l) && l'.readers == l.readers && l'.floor == l.floor && l'.horizon >= l.horizon
    requires forall a: Ix :: l'.stages[a].Keys <= l.stages[a].Keys
    ensures ReadersOnTrack(l')
  {
    forall id | Reading(l', id) ensures OnTrack(l', l'.readers[id]) {
      assert OnTrack(l, l.readers[id]);
    }
  }

  lemma StepInstallL0(l: Lsm)
    requires Inv(l) && Enabled(l, InstallL0)
    ensures Inv(Step(l, InstallL0))
  {
    var l' := Step(l, InstallL0);
    assert Holds(CShape, l);
    forall x: Clause ensures Holds(x, l') {
      match x {
        case CShape =>
        case CSourced => assert Holds(CSourced, l); StillSourced(l, l');
        case CNothingLost =>
          assert Holds(CNothingLost, l);
          forall d | d in l'.flat ensures Kept(l', d) || Superseded(l'.flat, l'.floor, d) {
            if Kept(l, d) {
              var a: Ix :| d in l.stages[a] && !InTransit(l, a, d);
              var a' := if a == IMM then L0 else a;
              assert d in l'.stages[a'] && !InTransit(l', a', d);
            }
          }
        case CNewerAbove =>
          forall a: Ix, b: Ix, x, y ensures Ordered(l', a, b, x, y) {
            assert Holds(CNewerAbove, l);
            assert Ordered(l, a, b, x, y) && Ordered(l, IMM, b, x, y) && Ordered(l, a, IMM, x, y);
          }
        case CReaders =>
          assert Holds(CReaders, l);
          forall id | Reading(l', id) ensures OnTrack(l', l'.readers[id]) {
            assert OnTrack(l, l.readers[id]);
          }
      }
    }
  }

  lemma StepClearImm(l: Lsm)
    requires Inv(l) && Enabled(l, ClearImm)
    ensures Inv(Step(l, ClearImm))
  {
    var l' := Step(l, ClearImm);
    assert Holds(CShape, l);
    forall x: Clause ensures Holds(x, l') {
      match x {
        case CShape =>
        case CSourced => assert Holds(CSourced, l); StillSourced(l, l');
        case CNothingLost => assert Holds(CNothingLost, l); LessLost(l, l');
        case CNewerAbove =>
          forall a: Ix, b: Ix, x, y ensures Ordered(l', a, b, x, y) {
            assert Holds(CNewerAbove, l);
            assert Ordered(l, a, b, x, y);
          }
        case CReaders => assert Holds(CReaders, l); SmallerReaders(l, l');
      }
    }
  }

  lemma StepRemove(l: Lsm)
    requires Inv(l) && Enabled(l, Remove)
    ensures Inv(Step(l, Remove))
  {
    var l' := Step(l, Remove);
    var m := l.moving.value;
    assert Holds(CShape, l);
    forall x: Clause ensures Holds(x, l') {
      match x {
        case CShape =>
        case CSourced => assert Holds(CSourced, l); StillSourced(l, l');
        case CNothingLost => assert Holds(CNothingLost, l); LessLost(l, l');
        case CNewerAbove =>
          forall a: Ix, b: Ix, x, y ensures Ordered(l', a, b, x, y) {
            assert Holds(CNewerAbove, l);
            assert Ordered(l, a, b, x, y);
            if y in m.cells && x.key == y.key { assert HasKey(m.cells, x.key); }
          }
        case CReaders => assert Holds(CReaders, l); SmallerReaders(l, l');
      }
    }
  }

  // -------- Install

  /** An input of the merge comes from the upper or from the lower stage. */
  ghost predicate FromEither(l: Lsm, g: Merge, y: Cell) {
    (y in l.stages[g.from] && y in g.upper) || (y in l.stages[g.to] && y in g.lower)
  }

  ghost predicate Installed(l: Lsm, l': Lsm, g: Merge) {
    Inv(l) && Enabled(l, Install(g)) && l' == Step(l, Install(g))
  }

  /** What the two changed stages hold afterwards. */
  lemma InstallContents(l: Lsm, l': Lsm, g: Merge, y: Cell)
    requires Installed(l, l', g)
    ensures y in l'.stages[g.to] <==> y in g.output || (y in l.stages[g.to] && y !in g.lower)
    ensures y in g.output ==> FromEither(l, g, y) && y in Inputs(l.stages, g)
    ensures y in l'.stages[GRAVES] ==>
              y in l.stages[GRAVES]
                  || (FromEither(l, g, y) && g.to == BOTTOM && forall d :: d in g.output ==> d.key != y.key)
    ensures forall a: Ix :: a != g.to && a != GRAVES ==> l'.stages[a] == l.stages[a]
  {}

  lemma InstallFate(l: Lsm, l': Lsm, g: Merge, y: Cell)
    requires Installed(l, l', g) && FromEither(l, g, y)
    ensures y in g.output || Superseded(Inputs(l.stages, g), g.minReadTs, y) || y in l'.stages[GRAVES]
  {
    assert y in Inputs(l.stages, g);
  }

  lemma InstallGraves(l: Lsm, l': Lsm, g: Merge, c: Cell)
    requires Installed(l, l', g) && c in l'.stages[GRAVES]
    ensures Dead(l'.stages[GRAVES][c], l'.clock)
  {
    assert Holds(CShape, l);
    var buried := Buried(l.stages, g);
    assert l'.stages[GRAVES] == l.stages[GRAVES] + buried;
    if c !in buried { assert Dead(l.stages[GRAVES][c], l.clock); }
  }

  lemma InstallShape(l: Lsm, l': Lsm, g: Merge)
    requires Installed(l, l', g)
    ensures Shape(l')
  {
    forall c | c in l'.stages[GRAVES] ensures Dead(l'.stages[GRAVES][c], l'.clock) {
      InstallGraves(l, l', g, c);
    }
    InstallMove(l, l', g);
    assert Holds(CShape, l);
    assert forall id :: Reading(l', id) ==> Reading(l, id);
  }

  lemma InstallMove(l: Lsm, l': Lsm, g: Merge)
    requires Installed(l, l', g)
    ensures l'.moving.Some? && MoveClosed(l'.stages, l'.moving.value) && !l'.rotating == !l.rotating
    ensures l'.stages[MEM] == l.stages[MEM] && l'.stages[IMM] == l.stages[IMM]
  {
    UpperClosed(l.stages, g, l.now);
    ClosedSame(l.stages, l'.stages, Move(g.from, g.to, g.upper));
  }

  lemma ClosedSame(s: Stack, s': Stack, m: Move)
    requires MoveClosed(s, m) && s'[m.from] == s[m.from]
    ensures MoveClosed(s', m)
  {}

  lemma UpperClosed(s: Stack, g: Merge, now: int)
    requires Mergeable(s, g, now)
    ensures MoveClosed(s, Move(g.from, g.to, g.upper))
  {}

  /** What an input of the merge holds, relative to what was inserted. */
  lemma InputSourced(l: Lsm, g: Merge, c: Cell)
    requires Inv(l) && c in Inputs(l.stages, g)
    ensures c in l.flat && StandsFor(l.flat[c], Inputs(l.stages, g)[c], l.clock)
  {
    assert Holds(CSourced, l);
    assert SourcedAt(l.stages, l.flat, l.clock, g.from, c) && SourcedAt(l.stages, l.flat, l.clock, g.to, c);
  }

  lemma InstallValue(l: Lsm, l': Lsm, g: Merge, a: Ix, c: Cell)
    requires Installed(l, l', g) && c in l'.stages[a]
    ensures || (c in l.stages[a] && l'.stages[a][c] == l.stages[a][c])
            || (c in Inputs(l.stages, g) && StandsFor(Inputs(l.stages, g)[c], l'.stages[a][c], l.now))
  {}

  lemma InstallSourced(l: Lsm, l': Lsm, g: Merge)
    requires Installed(l, l', g)
    ensures Sourced(l'.stages, l'.flat, l'.clock)
  {
    assert Holds(CShape, l) && Holds(CSourced, l);
    forall a: Ix, c ensures SourcedAt(l'.stages, l'.flat, l'.clock, a, c) {
      if c in l'.stages[a] {
        InstallValue(l, l', g, a, c);
        assert SourcedAt(l.stages, l.flat, l.clock, a, c);
        if c in Inputs(l.stages, g) { InputSourced(l, g, c); }
      }
    }
  }

  lemma MergedNotLost(l: Lsm, l': Lsm, g: Merge, d: Cell)
    requires Installed(l, l', g) && FromEither(l, g, d)
    ensures Kept(l', d) || Superseded(l'.flat, l'.floor, d)
  {
    InstallContents(l, l', g, d);
    InstallFate(l, l', g, d);
    assert Holds(CShape, l);
    if d in g.output {
      assert d in l'.stages[g.to] && !InTransit(l', g.to, d);
    } else if d in l'.stages[GRAVES] {
      assert !InTransit(l', GRAVES, d);
    } else {
      var v :| d.version < v <= g.minReadTs && Cell(d.key, v) in Inputs(l.stages, g);
      InputSourced(l, g, Cell(d.key, v));
      assert v <= l'.floor && Cell(d.key, v) in l'.flat;
    }
  }

  lemma OthersNotLost(l: Lsm, l': Lsm, g: Merge, d: Cell)
    requires Installed(l, l', g) && !FromEither(l, g, d) && d in l.flat
    ensures Kept(l', d) || Superseded(l'.flat, l'.floor, d)
  {
    assert Holds(CNothingLost, l) && Holds(CShape, l);
    if Kept(l, d) {
      var a: Ix :| d in l.stages[a] && !InTransit(l, a, d);
      InstallContents(l, l', g, d);
      assert d in l'.stages[a] && !InTransit(l', a, d);
    } else {
      var v :| d.version < v <= l.floor && Cell(d.key, v) in l.flat;
      assert v <= l'.floor;
    }
  }

  lemma InstallNothingLost(l: Lsm, l': Lsm, g: Merge)
    requires Installed(l, l', g)
    ensures NothingLost(l')
  {
    forall d | d in l'.flat ensures Kept(l', d) || Superseded(l'.flat, l'.floor, d) {
      if FromEither(l, g, d) { MergedNotLost(l, l', g, d); } else { OthersNotLost(l, l', g, d); }
    }
  }

  lemma InstallReaders(l: Lsm, l': Lsm, g: Merge)
    requires Installed(l, l', g)
    ensures ReadersOnTrack(l')
  {
    assert Holds(CReaders, l) && Holds(CShape, l);
    forall id | Reading(l', id) ensures OnTrack(l', l'.readers[id]) {
      var r := l.readers[id];
      assert Reading(l, id) && OnTrack(l, r);
      forall a: Ix, c | a < r.progress.stage && c in l'.stages[a] && c.key == r.key ensures c.version > r.ts {
        InstallContents(l, l', g, c);
      }
    }
  }

  /** An input of the merge, seen from a stage above both. */
  lemma InputBelow(l: Lsm, g: Merge, a: Ix, x: Cell, y: Cell)
    requires Inv(l) && Enabled(l, Install(g)) && FromEither(l, g, y) && x in l.stages[a] && x.key == y.key && a < g.to
    ensures y.version < x.version || (y in l.stages[a] && (InTransit(l, a, y) || (a == g.from && y in g.upper)))
  {
    assert Holds(CNewerAbove, l);
    assert Ordered(l, a, g.from, x, y) && Ordered(l, a, g.to, x, y);
    if y in g.upper { assert HasKey(g.upper, x.key); }
  }

  lemma InstallNewerAbove(l: Lsm, l': Lsm, g: Merge)
    requires Installed(l, l', g)
    ensures NewerAbove(l')
  {
    forall a: Ix, b: Ix, x, y ensures Ordered(l', a, b, x, y) {
      if a < b && x in l'.stages[a] && y in l'.stages[b] && x.key == y.key {
        InstallOrdered(l, l', g, a, b, x, y);
      }
    }
  }

  lemma InstallOrdered(l: Lsm, l': Lsm, g: Merge, a: Ix, b: Ix, x: Cell, y: Cell)
    requires Installed(l, l', g) && a < b && x in l'.stages[a] && y in l'.stages[b] && x.key == y.key
    ensures Ordered(l', a, b, x, y)
  {
    assert Holds(CNewerAbove, l);
    InstallContents(l, l', g, x);
    InstallContents(l, l', g, y);
    if y !in l.stages[b] || (b == g.to && y in g.lower) {
      // y was merged: it is in the output or buried
      assert FromEither(l, g, y);
      if a < g.to {
        InputBelow(l, g, a, x, y);
      } else {
        NoneBesideBuried(l, l', g, x, y);
      }
    } else if a == g.to && x in g.output {
      assert Ordered(l, g.from, b, x, y) && Ordered(l, g.to, b, x, y);
    } else {
      assert Ordered(l, a, b, x, y);
    }
  }

  lemma NoneBesideBuried(l: Lsm, l': Lsm, g: Merge, x: Cell, y: Cell)
    requires Installed(l, l', g) && FromEither(l, g, y)
    requires y in l'.stages[GRAVES] && y !in l.stages[GRAVES]
    ensures x in l'.stages[g.to] ==> x.key != y.key
  {
    InstallContents(l, l', g, x);
    InstallContents(l, l', g, y);
    if x.key == y.key && y in g.upper { assert HasKey(g.upper, x.key); }
    if x.key == y.key && y in g.lower { assert HasKey(g.lower, x.key); }
  }

  lemma StepInstall(l: Lsm, g: Merge)
    requires Inv(l) && Enabled(l, Install(g))
    ensures Inv(Step(l, Install(g)))
  {
    var l' := Step(l, Install(g));
    forall x: Clause ensures Holds(x, l') {
      match x {
        case CShape => InstallShape(l, l', g);
        case CSourced => InstallSourced(l, l', g);
        case CNothingLost => InstallNothingLost(l, l', g);
        case CNewerAbove => InstallNewerAbove(l, l', g);
        case CReaders => InstallReaders(l, l', g);
      }
    }
  }

  // -------- readers, the horizon and the clock

  lemma StepReadStage(l: Lsm, id: nat)
    requires Inv(l) && Reading(l, id)
    ensures Inv(Step(l, ReadStage(id)))
  {
    var l' := Step(l, ReadStage(id));
    assert OnTrack(l, l.readers[id]) by { assert Holds(CReaders, l); }
    assert Holds(CShape, l);
    VisitAnswers(l, l.readers[id]);
    forall x: Clause ensures Holds(x, l') {
      match x {
        case CShape =>
        case CSourced => assert Holds(CSourced, l); StillSourced(l, l');
        case CNothingLost => assert Holds(CNothingLost, l); LessLost(l, l');
        case CNewerAbove => SameOrder(l, l');
        case CReaders =>
          assert Holds(CReaders, l);
          forall i | Reading(l', i) ensures OnTrack(l', l'.readers[i]) {
            if i != id { assert Reading(l, i) && OnTrack(l, l.readers[i]); }
          }
      }
    }
  }

  lemma SameOrder(l: Lsm, l': Lsm)
    requires Inv(l) && l'.stages == l.stages && l'.rotating == l.rotating && l'.flushed == l.flushed
        && l'.moving == l.moving
    ensures NewerAbove(l')
  {
    assert Holds(CNewerAbove, l);
    forall a: Ix, b: Ix, x, y ensures Ordered(l', a, b, x, y) {
      assert Ordered(l, a, b, x, y);
    }
  }

  lemma StepStartRead(l: Lsm, id: nat, k: Key, ts: nat)
    requires Inv(l) && Enabled(l, StartRead(id, k, ts))
    ensures Inv(Step(l, StartRead(id, k, ts)))
  {
    var l' := Step(l, StartRead(id, k, ts));
    assert Holds(CShape, l);
    forall x: Clause ensures Holds(x, l') {
      match x {
        case CShape =>
        case CSourced => assert Holds(CSourced, l); StillSourced(l, l');
        case CNothingLost => assert Holds(CNothingLost, l); LessLost(l, l');
        case CNewerAbove => SameOrder(l, l');
        case CReaders =>
          assert Holds(CReaders, l);
          forall i | Reading(l', i) ensures OnTrack(l', l'.readers[i]) {
            if i != id { assert Reading(l, i) && OnTrack(l, l.readers[i]); }
          }
      }
    }
  }

  lemma StepPassive(l: Lsm, l': Lsm)
    requires Inv(l) && l.horizon <= l'.horizon && l.now <= l'.now
    requires l' == l.(horizon := l'.horizon, now := l'.now)
    ensures Inv(l')
  {
    assert Holds(CShape, l);
    forall x: Clause ensures Holds(x, l') {
      match x {
        case CShape => assert forall id :: Reading(l', id) ==> Reading(l, id);
        case CSourced => assert Holds(CSourced, l); StillSourced(l, l');
        case CNothingLost => assert Holds(CNothingLost, l); LessLost(l, l');
        case CNewerAbove => SameOrder(l, l');
        case CReaders => assert Holds(CReaders, l); SmallerReaders(l, l');
      }
    }
  }

  lemma InvStep(l: Lsm, a: Action)
    requires Inv(l) && Enabled(l, a)
    ensures Inv(Step(l, a))
  {
    match a {
      case Insert(c, p) => StepInsert(l, c, p);
      case RotateImm => StepRotateImm(l);
      case RotateMem => StepRotateMem(l);
      case InstallL0 => StepInstallL0(l);
      case ClearImm => StepClearImm(l);
      case Install(g) => StepInstall(l, g);
      case Remove => StepRemove(l);
      case StartRead(id, k, ts) => StepStartRead(l, id, k, ts);
      case ReadStage(id) => StepReadStage(l, id);
      case RaiseHorizon(h) => StepPassive(l, Step(l, a));
      case Tick(now) => StepPassive(l, Step(l, a));
    }
  }

  lemma {:induction false} InvRun(states: seq<Lsm>, acts: seq<Action>, n: nat)
    requires Run(states, acts) && n < |states|
    ensures Inv(states[n])
  {
    if n == 0 { InvEmpty(); }
    else {
      InvRun(states, acts, n - 1);
      InvStep(states[n - 1], acts[n - 1]);
    }
  }

  /** Refinement: in every run of inserts, rotations, flushes and compactions, whenever a read
      finishes, it returns what a single flat map of all versions ever inserted would return at
      its timestamp and at that moment, however the stages changed while it was on its way. */
  lemma ReadsAreFlat(states: seq<Lsm>, acts: seq<Action>, n: nat, id: nat)
    requires Run(states, acts) && n < |acts| && acts[n] == ReadStage(id)
    requires states[n + 1].readers[id].progress.Returned?
    ensures id in states[n].readers
            && var r := states[n].readers[id];
               states[n + 1].readers[id].progress.answer
                   == ObserveCell(Lookup(states[n].flat, r.key, r.ts), states[n].now)
  {
    InvRun(states, acts, n);
    var l := states[n];
    assert Holds(CReaders, l) && Holds(CShape, l);
    VisitAnswers(l, l.readers[id]);
  }

  // ---------------------------------------------------------------- versions only sink

  /** What a snapshot may see and lies from stage `s` on has a place there that it is not leaving. */
  lemma StaysBelow(l: Lsm, s: nat, c: Cell) returns (b: Ix)
    requires Inv(l) && Below(l, s, c) && !Superseded(l.flat, l.floor, c)
    ensures s <= b && c in l.stages[b] && !InTransit(l, b, c)
  {
    var a: Ix :| s <= a && c in l.stages[a];
    assert c in l.flat by { assert Holds(CSourced, l); assert SourcedAt(l.stages, l.flat, l.clock, a, c); }
    assert Holds(CNothingLost, l) && Kept(l, c);
    b :| c in l.stages[b] && !InTransit(l, b, c);
    assert Holds(CNewerAbove, l) && Ordered(l, b, a, c, c);
  }

  /** A step never lifts a version that a snapshot may still see afterwards. */
  lemma Sinks(l: Lsm, x: Action, s: nat, c: Cell)
    requires Inv(l) && Enabled(l, x) && Below(l, s, c) && !Superseded(l.flat, Step(l, x).floor, c)
    ensures Below(Step(l, x), s, c)
  {
    var l' := Step(l, x);
    assert !Superseded(l.flat, l.floor, c);
    var b := StaysBelow(l, s, c);
    match x {
      case RotateMem => assert c in l'.stages[if b == MEM then IMM else b] by { assert Holds(CShape, l); }
      case Install(g) => InstallSinks(l, g, b, c);
      case _ => assert c in l'.stages[b];
    }
  }

  lemma InstallSinks(l: Lsm, g: Merge, b: Ix, c: Cell)
    requires Inv(l) && Enabled(l, Install(g)) && c in l.stages[b] && !Superseded(l.flat, Max(l.floor, g.minReadTs), c)
    ensures Below(DoInstall(l, g), b, c)
  {
    var l', inputs := DoInstall(l, g), Inputs(l.stages, g);
    if b == g.to && c in g.lower && c !in g.output {
      assert c in inputs;
      if Superseded(inputs, g.minReadTs, c) { SupersededInFlat(l, g, c); }
      assert c in Buried(l.stages, g);
      assert c in l'.stages[GRAVES];
    } else {
      assert c in l'.stages[b];
    }
  }

  /** Of the stages from one on, if that one has a version a snapshot may see, it has the newest of them all,
      if any has. */
  lemma FirstIsNewest(l: Lsm, a: Ix, k: Key, ts: nat, c: Cell)
    requires Inv(l) && Newest(l.flat, k, ts) == Some(c.version) && c.key == k && Below(l, a, c)
    requires Newest(l.stages[a], k, ts).Some?
    ensures c in l.stages[a]
  {
    var d := Cell(k, Newest(l.stages[a], k, ts).value);
    assert d in l.flat by { assert Holds(CSourced, l); assert SourcedAt(l.stages, l.flat, l.clock, a, d); }
    var b: Ix :| a <= b && c in l.stages[b];
    assert Holds(CNewerAbove, l) && Ordered(l, a, b, d, c);
  }

  lemma SupersededInFlat(l: Lsm, g: Merge, c: Cell)
    requires Inv(l) && Superseded(Inputs(l.stages, g), g.minReadTs, c)
    ensures Superseded(l.flat, Max(l.floor, g.minReadTs), c)
  {
    var v :| c.version < v <= g.minReadTs && Cell(c.key, v) in Inputs(l.stages, g);
    assert Holds(CSourced, l);
    assert SourcedAt(l.stages, l.flat, l.clock, g.from, Cell(c.key, v))
        && SourcedAt(l.stages, l.flat, l.clock, g.to, Cell(c.key, v));
  }

  /** The newest version at a timestamp that no compaction has overtaken is somewhere. */
  lemma NewestSomewhere(l: Lsm, k: Key, ts: nat)
    requires Inv(l) && l.floor <= ts && Newest(l.flat, k, ts).Some?
    ensures Below(l, MEM, Cell(k, Newest(l.flat, k, ts).value))
    ensures !Superseded(l.flat, l.floor, Cell(k, Newest(l.flat, k, ts).value))
  {
    assert Holds(CNothingLost, l);
    var c := Cell(k, Newest(l.flat, k, ts).value);
    assert !Superseded(l.flat, l.floor, c);
    var a: Ix :| c in l.stages[a] && !InTransit(l, a, c);
  }
}
