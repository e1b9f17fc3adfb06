/** A get that does not go wrong returns what a single flat map of all versions would return, however the
    tree changes while it is on its way; and exactly when one that is left alone does. */
module ReadRefinement {
  import opened Store
  import ByteOrder
  import opened Entries
  import opened Tables
  import F = TableFile
  import SST = SSTable
  import L = LsmStages
  import R = LsmRefinement
  import ST = StorageTree
  import opened ReadPath

  // ---------------------------------------------------------------- the invariant

  ghost predicate InMems(mems: seq<L.Stage>, todo: seq<nat>) {
    todo != [] && forall i :: 0 <= i < |todo| ==> todo[i] < |mems|
  }

  /** What the files hold was inserted, or stands for what was. */
  ghost predicate FilesSourced(l: L.Lsm, files: seq<File>) {
    forall i, e :: 0 <= i < |files| && e in files[i].table.entries ==>
      e.cell in l.flat && L.StandsFor(l.flat[e.cell], e.payload, l.clock)
  }

  /** What every get satisfies, right or wrong. */
  ghost predicate GetOk(l: L.Lsm, mems: seq<L.Stage>, g: Get) {
    && g.ts <= l.horizon && (!g.pos.Returned? ==> l.floor <= g.ts)
    && match g.pos
       case LoadImm(m) => m < |mems|
       case Search(todo) => InMems(mems, todo)
       case Scan(todo, _) => InMems(mems, todo)
       case Copy(i) => i < LEVELS
       case Probe(i, files) => i < LEVELS && FilesOk(files) && FilesSourced(l, files)
       case _ => true
  }

  /** The newest version it can see is still in front of it, and nothing it has loaded that has an older one
      comes first. */
  ghost predicate OnWay(t: Tree, g: Get) {
    var c := NewestCell(t.lsm.flat, g.key, g.ts);
    c.Some? ==> Has(t, g.pos, c.value) && Leads(Loaded(t, g.pos), g.key, g.ts, c.value)
  }

  ghost predicate MemsOk(t: Tree) {
    && t.mems != [] && t.lsm.stages[L.MEM] == t.mems[|t.mems| - 1]
    && (t.imm.Some? ==> t.imm.value < |t.mems| && t.lsm.stages[L.IMM] == t.mems[t.imm.value])
    && (t.imm.None? ==> t.lsm.stages[L.IMM] == map[])
    && (t.lsm.rotating ==> t.imm == Some(|t.mems| - 1))
    && (!t.lsm.rotating && t.imm.Some? ==> t.imm.value < |t.mems| - 1)
  }

  ghost predicate MemSourced(flat: L.Stage, m: L.Stage) {
    forall c :: c in m ==> c in flat && flat[c] == m[c]
  }

  ghost predicate MemsSourced(t: Tree) {
    forall i :: 0 <= i < |t.mems| ==> MemSourced(t.lsm.flat, t.mems[i])
  }

  ghost predicate LevelShown(t: Tree, i: nat) {
    && i < |t.levels| == LEVELS && LevelOk(Shown(t.levels[i])) && (i > 0 ==> KeyDisjoint(Shown(t.levels[i])))
    && t.lsm.stages[L.L0 + i] == Content(Shown(t.levels[i]))
  }

  ghost predicate LevelsOk(t: Tree) {
    forall i :: 0 <= i < LEVELS ==> LevelShown(t, i)
  }

  ghost predicate GetsOk(t: Tree) {
    forall id :: id in t.gets ==> GetOk(t.lsm, t.mems, t.gets[id])
  }

  datatype Clause = CTree | CMems | CSourced | CLevels | CGets

  ghost predicate Holds(c: Clause, t: Tree) {
    match c
    case CTree => R.Inv(t.lsm) && t.lsm.readers == map[]
    case CMems => MemsOk(t)
    case CSourced => MemsSourced(t)
    case CLevels => LevelsOk(t)
    case CGets => GetsOk(t)
  }

  ghost predicate Inv(t: Tree) {
    forall c: Clause :: Holds(c, t)
  }

  lemma InvFrom(t: Tree)
    requires R.Inv(t.lsm) && t.lsm.readers == map[] && MemsOk(t) && MemsSourced(t) && LevelsOk(t) && GetsOk(t)
    ensures Inv(t)
  {
    forall c: Clause ensures Holds(c, t) { match c { case _ => } }
  }

  lemma InvAll(t: Tree)
    requires Inv(t)
    ensures R.Inv(t.lsm) && t.lsm.readers == map[] && MemsOk(t) && MemsSourced(t) && LevelsOk(t) && GetsOk(t)
  {
    assert Holds(CTree, t) && Holds(CMems, t) && Holds(CSourced, t) && Holds(CLevels, t) && Holds(CGets, t);
  }

  lemma InvEmpty()
    ensures Inv(Empty)
  {
    R.InvEmpty();
    forall i | 0 <= i < LEVELS ensures LevelShown(Empty, i) {
      assert Shown(Empty.levels[i]) == [];
      assert Content([]) == map[];
    }
    InvFrom(Empty);
  }

  // ---------------------------------------------------------------- what others do

  /** The flat store only gains versions no get can see, and the clocks go on. */
  ghost predicate Later(l: L.Lsm, l': L.Lsm) {
    && l.horizon <= l'.horizon && l.clock <= l'.clock
    && (forall c :: c in l.flat ==> c in l'.flat && l'.flat[c] == l.flat[c])
    && (forall c: Cell :: c.version <= l.horizon ==> Same(l.flat, l'.flat, c))
  }

  ghost predicate LaterMems(mems: seq<L.Stage>, mems': seq<L.Stage>, horizon: nat) {
    |mems| <= |mems'| && forall m, c: Cell :: 0 <= m < |mems| && c.version <= horizon ==> Same(mems[m], mems'[m], c)
  }

  lemma FlatStays(l: L.Lsm, l': L.Lsm, k: Key, ts: nat)
    requires Later(l, l') && ts <= l.horizon
    ensures Newest(l.flat, k, ts) == Newest(l'.flat, k, ts) && Lookup(l.flat, k, ts) == Lookup(l'.flat, k, ts)
  {
    forall v: nat | v <= ts ensures Same(l.flat, l'.flat, Cell(k, v)) {}
    LookupAgrees(l.flat, l'.flat, k, ts);
  }

  lemma FilesStay(l: L.Lsm, l': L.Lsm, files: seq<File>)
    requires Later(l, l') && FilesSourced(l, files)
    ensures FilesSourced(l', files)
  {}

  /** A step that touches no get, and lets no compaction overtake one. */
  lemma OthersStay(t: Tree, t': Tree)
    requires GetsOk(t) && t'.gets == t.gets && Later(t.lsm, t'.lsm) && LaterMems(t.mems, t'.mems, t.lsm.horizon)
    requires forall id :: id in t.gets && !t.gets[id].pos.Returned? ==> t'.lsm.floor <= t.gets[id].ts
    ensures GetsOk(t')
  {
    forall id | id in t'.gets ensures GetOk(t'.lsm, t'.mems, t'.gets[id]) {
      assert GetOk(t.lsm, t.mems, t.gets[id]);
      if t.gets[id].pos.Probe? { FilesStay(t.lsm, t'.lsm, t.gets[id].pos.files); }
    }
  }

  lemma LevelsStay(t: Tree, t': Tree)
    requires LevelsOk(t) && t'.levels == t.levels
    requires forall a: L.Ix :: L.L0 <= a <= L.BOTTOM ==> t'.lsm.stages[a] == t.lsm.stages[a]
    ensures LevelsOk(t')
  {
    forall i | 0 <= i < LEVELS ensures LevelShown(t', i) {
      var a: L.Ix := L.L0 + i;
      assert LevelShown(t, i) && t'.lsm.stages[a] == t'.lsm.stages[a];
    }
  }

  lemma LevelReplaced(t: Tree, t': Tree, l: nat, fs: seq<File>)
    requires LevelsOk(t) && l < LEVELS == |t.levels| && t'.levels == t.levels[l := fs]
    requires LevelOk(Shown(fs)) && (l > 0 ==> KeyDisjoint(Shown(fs))) && Content(Shown(fs)) == t'.lsm.stages[L.L0 + l]
    requires forall a: L.Ix :: L.L0 <= a <= L.BOTTOM && a != L.L0 + l ==> t'.lsm.stages[a] == t.lsm.stages[a]
    ensures LevelsOk(t')
  {
    forall i | 0 <= i < LEVELS ensures LevelShown(t', i) {
      var a: L.Ix := L.L0 + i;
      assert LevelShown(t, i) && t'.lsm.stages[a] == t'.lsm.stages[a];
    }
  }

  // ---------------------------------------------------------------- steps that are not of a get

  lemma StepInsert(t: Tree, c: Cell, p: Payload)
    requires Inv(t) && Enabled(t, Insert(c, p))
    ensures Inv(Step(t, Insert(c, p)))
  {
    InvAll(t);
    var t' := Step(t, Insert(c, p));
    R.InvStep(t.lsm, L.Insert(c, p));
    LevelsStay(t, t');
    InsertSourced(t, c, p, t');
    OthersStay(t, t');
    InvFrom(t');
  }

  lemma InsertSourced(t: Tree, c: Cell, p: Payload, t': Tree)
    requires MemsSourced(t) && t.mems != [] && c !in t.lsm.flat && t' == Inserted(t, c, p)
    ensures MemsSourced(t')
  {
    forall i | 0 <= i < |t'.mems| ensures MemSourced(t'.lsm.flat, t'.mems[i]) {
      assert MemSourced(t.lsm.flat, t.mems[i]);
    }
  }

  lemma StepRotate(t: Tree, a: Action)
    requires Inv(t) && CanMaintain(t, a) && (a.RotateImm? || a.RotateMem? || a.ClearImm?)
    ensures Inv(Maintained(t, a))
  {
    InvAll(t);
    var t' := Maintained(t, a);
    R.InvStep(t.lsm, if a.RotateImm? then L.RotateImm else if a.RotateMem? then L.RotateMem else L.ClearImm);
    assert R.Holds(R.CShape, t.lsm);
    LevelsStay(t, t');
    OthersStay(t, t');
    InvFrom(t');
  }

  lemma StepInstallL0(t: Tree, file: Option<File>)
    requires Inv(t) && CanMaintain(t, InstallL0(file))
    ensures Inv(Maintained(t, InstallL0(file)))
  {
    InvAll(t);
    var t' := Maintained(t, InstallL0(file));
    R.InvStep(t.lsm, L.InstallL0);
    if file.None? {
      LevelsStay(t, t');
    } else {
      var f, fs := file.value, t.levels[0];
      assert LevelShown(t, 0);
      ST.FlushedLevel(t.lsm, f.table.entries, Shown(fs));
      assert Shown(fs + [f]) == Shown(fs) + [Table(f.table.entries)];
      LevelReplaced(t, t', 0, fs + [f]);
    }
    OthersStay(t, t');
    InvFrom(t');
  }

  lemma StepInstall(t: Tree, g: L.Merge, fs: seq<File>)
    requires Inv(t) && Enabled(t, Install(g, fs))
    ensures Inv(Step(t, Install(g, fs)))
  {
    InvAll(t);
    var t' := Installed(t, g, fs);
    assert R.Inv(t'.lsm) by { R.InvStep(t.lsm, L.Install(g)); }
    assert t.lsm.clock <= t.lsm.now by { assert R.Holds(R.CShape, t.lsm); }
    InstallLevels(t, g, fs, t'.lsm, t');
    InvFrom(t');
  }

  lemma InstallFrame(l: L.Lsm, g: L.Merge, l': L.Lsm)
    requires l' == L.DoInstall(l, g)
    ensures l' == l.(stages := l'.stages, moving := l'.moving, floor := L.Max(l.floor, g.minReadTs), clock := l.now)
    ensures forall a: L.Ix :: a != g.to && a != L.GRAVES ==> l'.stages[a] == l.stages[a]
  {}

  lemma InstallLevels(t: Tree, g: L.Merge, fs: seq<File>, l': L.Lsm, t': Tree)
    requires MemsOk(t) && LevelsOk(t) && GetsOk(t) && t.lsm.clock <= t.lsm.now && Spares(t, g.minReadTs)
    requires CanInstall(t, g, fs) && t' == Installed(t, g, fs) && l' == L.DoInstall(t.lsm, g)
    ensures MemsOk(t') && LevelsOk(t') && GetsOk(t')
  {
    InstallFrame(t.lsm, g, l');
    LevelReplaced(t, t', g.to - L.L0, fs);
    forall id | id in t.gets && !t.gets[id].pos.Returned? ensures l'.floor <= t.gets[id].ts {
      assert GetOk(t.lsm, t.mems, t.gets[id]);
    }
    OthersStay(t, t');
  }

  lemma StepRemove(t: Tree, fs: seq<File>)
    requires Inv(t) && CanMaintain(t, Remove(fs))
    ensures Inv(Maintained(t, Remove(fs)))
  {
    InvAll(t);
    var t' := Maintained(t, Remove(fs));
    R.InvStep(t.lsm, L.Remove);
    LevelReplaced(t, t', t.lsm.moving.value.from - L.L0, fs);
    OthersStay(t, t');
    InvFrom(t');
  }

  lemma StepClose(t: Tree, id: nat)
    requires Inv(t)
    ensures Inv(t.(closed := t.closed + {id}))
  {
    InvAll(t);
    var t' := t.(closed := t.closed + {id});
    LevelsStay(t, t');
    OthersStay(t, t');
    InvFrom(t');
  }

  lemma StepMaintained(t: Tree, a: Action)
    requires Inv(t) && CanMaintain(t, a)
    ensures Inv(Maintained(t, a))
  {
    match a {
      case InstallL0(f) => StepInstallL0(t, f);
      case Remove(fs) => StepRemove(t, fs);
      case Close(id) => StepClose(t, id);
      case _ => StepRotate(t, a);
    }
  }

  lemma StepPass(t: Tree, horizon: nat, now: int)
    requires Inv(t) && t.lsm.horizon <= horizon && t.lsm.now <= now
    ensures Inv(t.(lsm := t.lsm.(horizon := horizon, now := now)))
  {
    InvAll(t);
    var t' := t.(lsm := t.lsm.(horizon := horizon, now := now));
    R.StepPassive(t.lsm, t'.lsm);
    LevelsStay(t, t');
    OthersStay(t, t');
    InvFrom(t');
  }

  lemma StepStartGet(t: Tree, id: nat, k: Key, ts: nat)
    requires Inv(t) && Enabled(t, StartGet(id, k, ts))
    ensures Inv(Step(t, StartGet(id, k, ts))) && OnWay(Step(t, StartGet(id, k, ts)), Get(k, ts, LoadMem))
  {
    InvAll(t);
    var t' := Step(t, StartGet(id, k, ts));
    LevelsStay(t, t');
    InvFrom(t');
    if Newest(t.lsm.flat, k, ts).Some? { R.NewestSomewhere(t.lsm, k, ts); }
  }

  // ---------------------------------------------------------------- others do not stop a get

  /** The step of the stages behind a step of the tree. */
  ghost function StageStep(t: Tree, a: Action): Option<L.Action> {
    match a
    case Insert(c, p) => Some(L.Insert(c, p))
    case RotateImm => Some(L.RotateImm)
    case RotateMem => Some(L.RotateMem)
    case InstallL0(_) => Some(L.InstallL0)
    case ClearImm => Some(L.ClearImm)
    case Install(g, _) => Some(L.Install(g))
    case Remove(_) => Some(L.Remove)
    case _ => None
  }

  lemma StagesSink(t: Tree, a: Action, s: nat, c: Cell)
    requires R.Inv(t.lsm) && Enabled(t, a) && L.Below(t.lsm, s, c)
    requires !L.Superseded(t.lsm.flat, Step(t, a).lsm.floor, c)
    ensures L.Below(Step(t, a).lsm, s, c)
  {
    var x := StageStep(t, a);
    if x.Some? {
      R.Sinks(t.lsm, x.value, s, c);
      assert Step(t, a).lsm == L.Step(t.lsm, x.value);
    } else {
      assert Step(t, a).lsm.stages == t.lsm.stages;
    }
  }

  lemma StepLater(t: Tree, a: Action)
    requires R.Inv(t.lsm) && Enabled(t, a)
    ensures Later(t.lsm, Step(t, a).lsm) && LaterMems(t.mems, Step(t, a).mems, t.lsm.horizon)
  {
    var x := StageStep(t, a);
    if x.Some? {
      StageLater(t.lsm, x.value);
      assert Step(t, a).lsm == L.Step(t.lsm, x.value);
    }
    MemsLater(t, a);
  }

  lemma StageLater(l: L.Lsm, x: L.Action)
    requires R.Inv(l) && L.Enabled(l, x)
    ensures Later(l, L.Step(l, x))
  {
    assert R.Holds(R.CShape, l);
  }

  lemma MemsLater(t: Tree, a: Action)
    requires Enabled(t, a)
    ensures LaterMems(t.mems, Step(t, a).mems, t.lsm.horizon)
  {}

  lemma HasStays(t: Tree, a: Action, g: Get, c: Cell)
    requires R.Inv(t.lsm) && Enabled(t, a) && GetOk(t.lsm, t.mems, g) && c.version <= t.lsm.horizon
    requires !L.Superseded(t.lsm.flat, Step(t, a).lsm.floor, c) && Has(t, g.pos, c)
    ensures Has(Step(t, a), g.pos, c)
  {
    var t' := Step(t, a);
    StepLater(t, a);
    match g.pos {
      case LoadMem => StagesSink(t, a, L.MEM, c);
      case LoadImm(m) => if c !in t.mems[m] { StagesSink(t, a, L.IMM, c); }
      case Search(todo) => ListHasStays(t, a, t', todo, c);
      case Scan(todo, _) => ListHasStays(t, a, t', todo, c);
      case Copy(i) => StagesSink(t, a, L.L0 + i, c);
      case Probe(i, files) => if !InFiles(files, c) { StagesSink(t, a, L.L0 + i + 1, c); }
    }
  }

  lemma ListHasStays(t: Tree, a: Action, t': Tree, todo: seq<nat>, c: Cell)
    requires R.Inv(t.lsm) && Enabled(t, a) && t' == Step(t, a) && LaterMems(t.mems, t'.mems, t.lsm.horizon)
    requires c.version <= t.lsm.horizon && !L.Superseded(t.lsm.flat, t'.lsm.floor, c)
    requires InSome(t.mems, todo, c) || L.Below(t.lsm, L.L0, c)
    ensures InSome(t'.mems, todo, c) || L.Below(t'.lsm, L.L0, c)
  {
    if InSome(t.mems, todo, c) {
      var i :| 0 <= i < |todo| && todo[i] < |t.mems| && c in t.mems[todo[i]];
      assert Same(t.mems[todo[i]], t'.mems[todo[i]], c);
      assert c in t'.mems[todo[i]];
    } else {
      StagesSink(t, a, L.L0, c);
    }
  }

  lemma {:induction false} LeadsStays(ms: seq<L.Stage>, ms': seq<L.Stage>, k: Key, ts: nat, c: Cell)
    requires |ms| == |ms'| && c.key == k && c.version <= ts && Leads(ms, k, ts, c)
    requires forall i, v: nat :: 0 <= i < |ms| && v <= ts ==> Same(ms[i], ms'[i], Cell(k, v))
    ensures Leads(ms', k, ts, c)
  {
    if ms != [] {
      assert Same(ms[0], ms'[0], Cell(k, c.version));
      LookupAgrees(ms[0], ms'[0], k, ts);
      if c !in ms[0] { LeadsStays(ms[1..], ms'[1..], k, ts, c); }
    }
  }

  /** What a get has loaded only gains versions it cannot see. */
  lemma LoadedStays(t: Tree, t': Tree, g: Get, i: nat, v: nat)
    requires LaterMems(t.mems, t'.mems, t.lsm.horizon) && GetOk(t.lsm, t.mems, g) && v <= g.ts
    requires i < |Loaded(t, g.pos)|
    ensures |Loaded(t', g.pos)| == |Loaded(t, g.pos)|
    ensures Same(Loaded(t, g.pos)[i], Loaded(t', g.pos)[i], Cell(g.key, v))
  {
    match g.pos {
      case LoadImm(m) => assert Same(t.mems[m], t'.mems[m], Cell(g.key, v));
      case Search(todo) => assert Same(t.mems[todo[i]], t'.mems[todo[i]], Cell(g.key, v));
      case Scan(todo, _) => assert Same(t.mems[todo[i]], t'.mems[todo[i]], Cell(g.key, v));
      case _ =>
    }
  }

  lemma OrderStays(t: Tree, t': Tree, g: Get, c: Cell)
    requires LaterMems(t.mems, t'.mems, t.lsm.horizon) && GetOk(t.lsm, t.mems, g) && c.key == g.key && c.version <= g.ts
    requires Leads(Loaded(t, g.pos), g.key, g.ts, c)
    ensures Leads(Loaded(t', g.pos), g.key, g.ts, c)
  {
    var ms, ms' := Loaded(t, g.pos), Loaded(t', g.pos);
    forall i, v: nat | 0 <= i < |ms| && v <= g.ts ensures |ms'| == |ms| && Same(ms[i], ms'[i], Cell(g.key, v)) {
      LoadedStays(t, t', g, i, v);
    }
    if ms != [] { LoadedStays(t, t', g, 0, 0); LeadsStays(ms, ms', g.key, g.ts, c); }
  }

  /** Whatever the others do, a get that is on its way stays so. */
  lemma WayStays(t: Tree, a: Action, g: Get)
    requires Inv(t) && Enabled(t, a) && GetOk(t.lsm, t.mems, g) && Step(t, a).lsm.floor <= g.ts && OnWay(t, g)
    ensures OnWay(Step(t, a), g)
  {
    InvAll(t);
    StepLater(t, a);
    FlatStays(t.lsm, Step(t, a).lsm, g.key, g.ts);
    var c := NewestCell(t.lsm.flat, g.key, g.ts);
    if c.Some? {
      HasStays(t, a, g, c.value);
      OrderStays(t, Step(t, a), g, c.value);
    }
  }

  // ---------------------------------------------------------------- steps of a get

  /** The right answer of a get. */
  ghost predicate Right(l: L.Lsm, g: Get, pos: Pos) {
    pos.Returned? ==> pos.answer == ObserveCell(Lookup(l.flat, g.key, g.ts), l.now)
  }

  lemma MoveOk(t: Tree, g: Get, hint: Option<Key>, cached: bool)
    requires Inv(t) && GetOk(t.lsm, t.mems, g) && CanMove(t, g, hint)
    ensures GetOk(t.lsm, t.mems, g.(pos := Move(t, g, hint, cached)))
  {
    InvAll(t);
    match g.pos {
      case LoadImm(m) => assert InMems(t.mems, if t.imm.Some? then [m, t.imm.value] else [m]);
      case Copy(i) => CopySourced(t, i);
      case _ =>
    }
  }

  lemma CopySourced(t: Tree, i: nat)
    requires R.Inv(t.lsm) && LevelsOk(t) && i < LEVELS
    ensures i < |t.levels| && FilesOk(t.levels[i]) && FilesSourced(t.lsm, t.levels[i])
  {
    assert LevelShown(t, i);
    var files := t.levels[i];
    assert FilesOk(files) by {
      forall j | 0 <= j < |files| ensures TableOk(files[j].table) { assert Shown(files)[j] == files[j].table; }
    }
    forall j, e | 0 <= j < |files| && e in files[j].table.entries
      ensures e.cell in t.lsm.flat && L.StandsFor(t.lsm.flat[e.cell], e.payload, t.lsm.clock)
    {
      assert Held(Shown(files), j, e);
      HeldInContent(Shown(files), j, e);
      assert R.Holds(R.CSourced, t.lsm);
      assert R.SourcedAt(t.lsm.stages, t.lsm.flat, t.lsm.clock, L.L0 + i, e.cell);
    }
  }

  /** What is looked at was inserted, or stands for what was. */
  lemma LookedSourced(t: Tree, g: Get, c: Cell)
    requires MemsSourced(t) && GetOk(t.lsm, t.mems, g) && Looks(t, g.pos) && c in LooksIn(t, g.pos)
    ensures c in t.lsm.flat && L.StandsFor(t.lsm.flat[c], LooksIn(t, g.pos)[c], t.lsm.clock)
  {
    if g.pos.Scan? {
      assert MemSourced(t.lsm.flat, t.mems[g.pos.todo[0]]);
    } else {
      var n := |g.pos.files| - 1;
      var es := g.pos.files[n].table.entries;
      assert Entry(c, RunMap(es)[c]) in es;
    }
  }

  /** The newest version of all, if it is there, is the newest there. */
  lemma NewestThere(t: Tree, g: Get, c: Cell)
    requires MemsSourced(t) && GetOk(t.lsm, t.mems, g) && Looks(t, g.pos)
    requires NewestCell(t.lsm.flat, g.key, g.ts) == Some(c) && c in LooksIn(t, g.pos)
    ensures NewestCell(LooksIn(t, g.pos), g.key, g.ts) == Some(c)
  {
    var d := NewestCell(LooksIn(t, g.pos), g.key, g.ts).value;
    LookedSourced(t, g, d);
  }

  lemma TodoSplits(mems: seq<L.Stage>, todo: seq<nat>, c: Cell)
    requires todo != [] && todo[0] < |mems|
    ensures InSome(mems, todo, c) <==> c in mems[todo[0]] || InSome(mems, todo[1..], c)
  {
    if InSome(mems, todo, c) && c !in mems[todo[0]] {
      var i :| 0 <= i < |todo| && todo[i] < |mems| && c in mems[todo[i]];
      assert todo[1..][i - 1] == todo[i];
    }
    if InSome(mems, todo[1..], c) {
      var i :| 0 <= i < |todo[1..]| && todo[1..][i] < |mems| && c in mems[todo[1..][i]];
      assert todo[i + 1] == todo[1..][i];
    }
  }

  lemma FilesSplit(files: seq<File>, c: Cell)
    requires files != [] && FilesOk(files)
    ensures InFiles(files, c) <==>
              c in RunMap(files[|files| - 1].table.entries) || InFiles(files[..|files| - 1], c)
  {
    var n := |files| - 1;
    var es := files[n].table.entries;
    if c in RunMap(es) { assert Entry(c, RunMap(es)[c]) in es; }
    if InFiles(files[..n], c) {
      var i, e :| 0 <= i < |files[..n]| && e in files[..n][i].table.entries && e.cell == c;
      assert e in files[i].table.entries;
    }
    if InFiles(files, c) {
      var i, e :| 0 <= i < |files| && e in files[i].table.entries && e.cell == c;
      if i < n { assert e in files[..n][i].table.entries; }
    }
  }

  /** What is in front of a get is in what it looks at now or in front of it afterwards. */
  lemma HasSplits(t: Tree, pos: Pos, c: Cell)
    requires Looks(t, pos)
    ensures Has(t, pos, c) <==> c in LooksIn(t, pos) || Has(t, GoesOn(t, pos), c)
  {
    match pos {
      case Scan(todo, _) =>
        TodoSplits(t.mems, todo, c);
        assert |todo| == 1 ==> todo[1..] == [];
      case Probe(l, files) => FilesSplit(files, c);
    }
  }

  lemma LoadedSplits(t: Tree, pos: Pos)
    requires Looks(t, pos)
    ensures Loaded(t, pos) != [] && Loaded(t, pos)[0] == LooksIn(t, pos)
    ensures Loaded(t, GoesOn(t, pos)) == Loaded(t, pos)[1..]
  {
    match pos {
      case Scan(todo, _) =>
      case Probe(l, files) =>
        assert FileMaps(files)[0] == FileMap(files[|files| - 1]);
        assert FileMaps(files[..|files| - 1]) == FileMaps(files)[1..];
    }
  }

  /** On its way, a get that meets a version it can see meets the newest one. */
  lemma MeetsNewest(t: Tree, g: Get)
    requires MemsSourced(t) && GetOk(t.lsm, t.mems, g) && Looks(t, g.pos) && OnWay(t, g)
    ensures var c, d := NewestCell(t.lsm.flat, g.key, g.ts), NewestCell(LooksIn(t, g.pos), g.key, g.ts);
            if d.Some? then d == c
            else c.Some? ==> Has(t, GoesOn(t, g.pos), c.value)
                             && Leads(Loaded(t, GoesOn(t, g.pos)), g.key, g.ts, c.value)
  {
    var c, d := NewestCell(t.lsm.flat, g.key, g.ts), NewestCell(LooksIn(t, g.pos), g.key, g.ts);
    LoadedSplits(t, g.pos);
    if d.Some? { LookedSourced(t, g, d.value); }
    if c.Some? {
      HasSplits(t, g.pos, c.value);
      if d.Some? { NewestThere(t, g, c.value); }
    }
  }

  lemma FindsThere(t: Tree, g: Get, cached: bool)
    requires Looks(t, g.pos) && !LeavesOut(t, g, cached) && !LooksAcross(g)
    ensures Finds(t, g, cached) == Lookup(LooksIn(t, g.pos), g.key, g.ts)
  {
    if g.pos.Probe? {
      var f := g.pos.files[|g.pos.files| - 1];
      TableHitIs(f.table, g.key, g.ts);
      FindIsLookup(f.table.entries, RunMap(f.table.entries), g.key, g.ts);
    }
  }

  lemma StandsRight(l: L.Lsm, k: Key, ts: nat, p: Payload)
    requires l.clock <= l.now && Lookup(l.flat, k, ts).Some? && L.StandsFor(Lookup(l.flat, k, ts).value, p, l.clock)
    ensures Observe(p, l.now) == ObserveCell(Lookup(l.flat, k, ts), l.now)
  {}

  /** A lookup that does not go wrong. */
  lemma LookMoves(t: Tree, g: Get, hint: Option<Key>, cached: bool)
    requires Inv(t) && GetOk(t.lsm, t.mems, g) && CanMove(t, g, hint) && Looks(t, g.pos)
    requires OnWay(t, g) && !Missed(t, g, cached)
    ensures var pos := Move(t, g, hint, cached);
            Right(t.lsm, g, pos) && (!pos.Returned? ==> OnWay(t, g.(pos := pos)))
  {
    InvAll(t);
    var d := NewestCell(LooksIn(t, g.pos), g.key, g.ts);
    MeetsNewest(t, g);
    if !LeavesOut(t, g, cached) {
      FindsThere(t, g, cached);
      if d.Some? {
        LookedSourced(t, g, d.value);
        assert R.Holds(R.CShape, t.lsm);
        StandsRight(t.lsm, g.key, g.ts, LooksIn(t, g.pos)[d.value]);
      }
    }
  }

  /** A step that loads something, or ends. */
  lemma LoadMoves(t: Tree, g: Get, hint: Option<Key>, cached: bool)
    requires Inv(t) && GetOk(t.lsm, t.mems, g) && CanMove(t, g, hint) && !Looks(t, g.pos) && OnWay(t, g)
    ensures var pos := Move(t, g, hint, cached);
            Right(t.lsm, g, pos) && (!pos.Returned? ==> OnWay(t, g.(pos := pos)))
  {
    InvAll(t);
    var c := NewestCell(t.lsm.flat, g.key, g.ts);
    if c.Some? {
      LoadHas(t, g, hint, cached, c.value);
      LoadLeads(t, g, hint, cached, c.value);
      if g.pos.Probe? && g.pos.level + 1 == LEVELS { BuriedIsDead(t.lsm, c.value); }
    }
  }

  /** What a get loads is in order: of it, the first that has a version the get can see has the newest. */
  lemma LoadLeads(t: Tree, g: Get, hint: Option<Key>, cached: bool, c: Cell)
    requires Inv(t) && GetOk(t.lsm, t.mems, g) && CanMove(t, g, hint) && !Looks(t, g.pos)
    requires NewestCell(t.lsm.flat, g.key, g.ts) == Some(c) && OnWay(t, g)
    ensures Leads(Loaded(t, Move(t, g, hint, cached)), g.key, g.ts, c)
  {
    InvAll(t);
    match g.pos {
      case LoadMem => LoadsMem(t, g, c);
      case LoadImm(m) => LoadsImm(t, g, m, c);
      case Search(_) =>
      case Copy(i) => CopiesLevel(t, g, i, c);
      case Probe(_, _) =>
    }
  }

  lemma LoadsMem(t: Tree, g: Get, c: Cell)
    requires R.Inv(t.lsm) && MemsOk(t) && L.Below(t.lsm, L.MEM, c)
    requires NewestCell(t.lsm.flat, g.key, g.ts) == Some(c)
    ensures Leads(MemMaps(t.mems, [|t.mems| - 1]), g.key, g.ts, c)
  {
    if Newest(t.lsm.stages[L.MEM], g.key, g.ts).Some? { R.FirstIsNewest(t.lsm, L.MEM, g.key, g.ts, c); }
    assert MemMaps(t.mems, [|t.mems| - 1])[1..] == [];
  }

  lemma LoadsImm(t: Tree, g: Get, m: nat, c: Cell)
    requires R.Inv(t.lsm) && MemsOk(t) && m < |t.mems| && g.pos == LoadImm(m) && OnWay(t, g)
    requires NewestCell(t.lsm.flat, g.key, g.ts) == Some(c)
    ensures Leads(MemMaps(t.mems, if t.imm.Some? then [m, t.imm.value] else [m]), g.key, g.ts, c)
  {
    assert Loaded(t, g.pos) == [t.mems[m]];
    if t.imm.Some? {
      var ms := MemMaps(t.mems, [m, t.imm.value]);
      assert ms[1..] == [t.lsm.stages[L.IMM]] && ms[1..][1..] == [];
      if c !in t.mems[m] && Newest(t.lsm.stages[L.IMM], g.key, g.ts).Some? {
        R.FirstIsNewest(t.lsm, L.IMM, g.key, g.ts, c);
      }
    }
  }

  lemma CopiesLevel(t: Tree, g: Get, i: nat, c: Cell)
    requires R.Inv(t.lsm) && LevelsOk(t) && i < LEVELS && i < |t.levels| && L.Below(t.lsm, L.L0 + i, c)
    requires NewestCell(t.lsm.flat, g.key, g.ts) == Some(c)
    ensures Leads(FileMaps(t.levels[i]), g.key, g.ts, c)
  {
    assert LevelShown(t, i);
    var files := t.levels[i];
    assert AtMost(files, g.key, g.ts, c) by { CopySourced(t, i); }
    if Newest(t.lsm.stages[L.L0 + i], g.key, g.ts).Some? {
      R.FirstIsNewest(t.lsm, L.L0 + i, g.key, g.ts, c);
      var j := ContentHeld(Shown(files), c);
      assert HeldIn(files, |files|, c);
    } else {
      forall j, e | Held(Shown(files), j, e) && e.cell.key == g.key ensures e.cell.version > g.ts {
        HeldInContent(Shown(files), j, e);
        assert e.cell == Cell(g.key, e.cell.version);
      }
    }
    FilesLead(files, |files|, g.key, g.ts, c);
    assert files[..|files|] == files;
  }

  /** The files hold no newer version than `c`. */
  ghost predicate AtMost(files: seq<File>, k: Key, ts: nat, c: Cell) {
    forall j, e :: Held(Shown(files), j, e) && e.cell.key == k && e.cell.version <= ts ==> e.cell.version <= c.version
  }

  ghost predicate HeldIn(files: seq<File>, n: nat, c: Cell) {
    exists j, e :: j < n && Held(Shown(files), j, e) && e.cell == c
  }

  ghost predicate NothingIn(files: seq<File>, n: nat, k: Key, ts: nat) {
    forall j, e :: j < n && Held(Shown(files), j, e) && e.cell.key == k ==> e.cell.version > ts
  }

  /** No table of a level that is probed before the one with the newest version has an older one. */
  lemma {:induction false} FilesLead(files: seq<File>, n: nat, k: Key, ts: nat, c: Cell)
    requires LevelOk(Shown(files)) && n <= |files| && c.key == k && AtMost(files, k, ts, c)
    requires HeldIn(files, n, c) || NothingIn(files, n, k, ts)
    ensures Leads(FileMaps(files[..n]), k, ts, c)
  {
    if n > 0 {
      var ms := FileMaps(files[..n]);
      assert ms[1..] == FileMaps(files[..n - 1]) by { assert files[..n][..n - 1] == files[..n - 1]; }
      assert TableOk(Shown(files)[n - 1]);
      var es := files[n - 1].table.entries;
      assert ms[0] == FileMap(files[n - 1]) == RunMap(es);
      if c !in ms[0] {
        TopHasNone(files, n, k, ts, c);
        FilesLead(files, n - 1, k, ts, c);
      }
    }
  }

  lemma TopHasNone(files: seq<File>, n: nat, k: Key, ts: nat, c: Cell)
    requires LevelOk(Shown(files)) && 0 < n <= |files| && c.key == k && AtMost(files, k, ts, c)
    requires TableOk(files[n - 1].table) && c !in RunMap(files[n - 1].table.entries)
    requires HeldIn(files, n, c) || NothingIn(files, n, k, ts)
    ensures Newest(RunMap(files[n - 1].table.entries), k, ts).None?
    ensures HeldIn(files, n - 1, c) || NothingIn(files, n - 1, k, ts)
  {
    var es := files[n - 1].table.entries;
    assert forall e :: e in es ==> e.cell in RunMap(es);
    if HeldIn(files, n, c) {
      var j, e :| j < n && Held(Shown(files), j, e) && e.cell == c;
      assert HeldIn(files, n - 1, c);
    }
    var v := Newest(RunMap(es), k, ts);
    if v.Some? {
      var d := Entry(Cell(k, v.value), RunMap(es)[Cell(k, v.value)]);
      assert d in es && Held(Shown(files), n - 1, d);
    }
  }

  lemma BuriedIsDead(l: L.Lsm, c: Cell)
    requires R.Inv(l) && L.Below(l, L.GRAVES, c)
    ensures c in l.flat && Dead(l.flat[c], l.now)
  {
    assert R.Holds(R.CSourced, l) && R.Holds(R.CShape, l);
    assert R.SourcedAt(l.stages, l.flat, l.clock, L.GRAVES, c);
  }

  /** Loading a stage keeps in front of a get what was. */
  lemma LoadHas(t: Tree, g: Get, hint: Option<Key>, cached: bool, c: Cell)
    requires MemsOk(t) && LevelsOk(t) && GetOk(t.lsm, t.mems, g) && CanMove(t, g, hint) && !Looks(t, g.pos)
    ensures Has(t, g.pos, c) ==>
              var pos := Move(t, g, hint, cached);
              Has(t, pos, c) || (pos.Returned? && L.Below(t.lsm, L.GRAVES, c))
    ensures Has(t, Move(t, g, hint, cached), c) ==> Has(t, g.pos, c)
  {
    match g.pos {
      case LoadMem =>
      case LoadImm(m) => LoadedImm(t, m, c);
      case Search(_) =>
      case Copy(i) => CopiedLevel(t, i, c);
      case Probe(_, _) =>
    }
  }

  lemma LoadedImm(t: Tree, m: nat, c: Cell)
    requires MemsOk(t) && m < |t.mems|
    ensures Has(t, LoadImm(m), c) <==> Has(t, Search(if t.imm.Some? then [m, t.imm.value] else [m]), c)
  {
    var todo := if t.imm.Some? then [m, t.imm.value] else [m];
    TodoSplits(t.mems, todo, c);
    if t.imm.Some? {
      assert todo[1..] == [t.imm.value];
      TodoSplits(t.mems, [t.imm.value], c);
      assert [t.imm.value][1..] == [];
    } else {
      assert todo[1..] == [];
    }
  }

  lemma CopiedLevel(t: Tree, i: nat, c: Cell)
    requires LevelsOk(t) && i < LEVELS && i < |t.levels|
    ensures Has(t, Copy(i), c) <==> Has(t, Probe(i, t.levels[i]), c)
  {
    assert LevelShown(t, i);
    var ts := Shown(t.levels[i]);
    if c in Content(ts) {
      var j := ContentHeld(ts, c);
      assert Entry(c, Content(ts)[c]) in t.levels[i][j].table.entries;
    }
    if InFiles(t.levels[i], c) {
      var j, e :| 0 <= j < |t.levels[i]| && e in t.levels[i][j].table.entries && e.cell == c;
      assert Held(ts, j, e);
      HeldInContent(ts, j, e);
    }
  }

  lemma GetMoves(t: Tree, g: Get, hint: Option<Key>, cached: bool)
    requires Inv(t) && GetOk(t.lsm, t.mems, g) && CanMove(t, g, hint) && OnWay(t, g) && !Missed(t, g, cached)
    ensures var pos := Move(t, g, hint, cached);
            Right(t.lsm, g, pos) && (!pos.Returned? ==> OnWay(t, g.(pos := pos)))
  {
    if Looks(t, g.pos) { LookMoves(t, g, hint, cached); } else { LoadMoves(t, g, hint, cached); }
  }

  lemma StepGet(t: Tree, id: nat, hint: Option<Key>, cached: bool)
    requires Inv(t) && Enabled(t, GetStep(id, hint, cached))
    ensures Inv(Moved(t, id, hint, cached))
  {
    InvAll(t);
    MoveOk(t, t.gets[id], hint, cached);
    LevelsStay(t, Moved(t, id, hint, cached));
    InvFrom(Moved(t, id, hint, cached));
  }

  // ---------------------------------------------------------------- every run

  lemma InvStep(t: Tree, a: Action)
    requires Inv(t) && Enabled(t, a)
    ensures Inv(Step(t, a))
  {
    match a {
      case Insert(c, p) => StepInsert(t, c, p);
      case Install(g, fs) => StepInstall(t, g, fs);
      case StartGet(id, k, ts) => StepStartGet(t, id, k, ts);
      case GetStep(id, hint, cached) => StepGet(t, id, hint, cached);
      case Pass(horizon, now) => StepPass(t, horizon, now);
      case _ => StepMaintained(t, a);
    }
  }

  lemma {:induction false} InvRun(states: seq<Tree>, acts: seq<Action>, n: nat)
    requires IsRun(states, acts) && n < |states|
    ensures Inv(states[n])
  {
    if n == 0 { InvEmpty(); }
    else {
      InvRun(states, acts, n - 1);
      InvStep(states[n - 1], acts[n - 1]);
    }
  }

  /** Get `id` is under way and the newest version it can see is still in front of it. */
  ghost predicate Underway(t: Tree, id: nat) {
    id in t.gets && !t.gets[id].pos.Returned? && OnWay(t, t.gets[id])
  }

  lemma OwnStep(t: Tree, id: nat, hint: Option<Key>, cached: bool)
    requires Inv(t) && Underway(t, id) && CanMove(t, t.gets[id], hint) && !Missed(t, t.gets[id], cached)
    ensures var t' := Moved(t, id, hint, cached);
            Right(t.lsm, t.gets[id], t'.gets[id].pos) && (Underway(t', id) || t'.gets[id].pos.Returned?)
  {
    var t' := Moved(t, id, hint, cached);
    assert GetOk(t.lsm, t.mems, t.gets[id]) by { InvAll(t); }
    GetMoves(t, t.gets[id], hint, cached);
    SameWay(t, t', t'.gets[id]);
  }

  lemma SameWay(t: Tree, t': Tree, g: Get)
    requires t' == t.(gets := t'.gets)
    ensures OnWay(t', g) == OnWay(t, g)
  {}

  lemma OtherStep(t: Tree, a: Action, id: nat)
    requires Inv(t) && Enabled(t, a) && Underway(t, id) && !(a.GetStep? && a.id == id)
    ensures id in Step(t, a).gets && Step(t, a).gets[id] == t.gets[id] && Underway(Step(t, a), id)
  {
    var g := t.gets[id];
    assert GetOk(t.lsm, t.mems, g) by { InvAll(t); }
    assert Step(t, a).gets[id] == g by { OthersGet(t, a, id); }
    assert Step(t, a).lsm.floor <= g.ts by {
      InvStep(t, a);
      InvAll(Step(t, a));
    }
    WayStays(t, a, g);
  }

  lemma OthersGet(t: Tree, a: Action, id: nat)
    requires Enabled(t, a) && id in t.gets && !(a.GetStep? && a.id == id)
    ensures id in Step(t, a).gets && Step(t, a).gets[id] == t.gets[id]
  {}

  lemma UnderwayStep(t: Tree, a: Action, id: nat)
    requires Inv(t) && Enabled(t, a) && Underway(t, id) && !Misses(t, a, id)
    ensures id in Step(t, a).gets
    ensures Step(t, a).gets[id].key == t.gets[id].key && Step(t, a).gets[id].ts == t.gets[id].ts
    ensures Right(t.lsm, t.gets[id], Step(t, a).gets[id].pos)
    ensures Underway(Step(t, a), id) || Step(t, a).gets[id].pos.Returned?
  {
    if a.GetStep? && a.id == id { OwnStep(t, id, a.hint, a.cached); } else { OtherStep(t, a, id); }
  }

  /** Get `id` is still after `k` at `ts`, and on its way or done. */
  ghost predicate After(t: Tree, id: nat, k: Key, ts: nat) {
    && id in t.gets && t.gets[id].key == k && t.gets[id].ts == ts
    && (t.gets[id].pos.Returned? || OnWay(t, t.gets[id]))
  }

  lemma AfterStep(t: Tree, a: Action, t': Tree, id: nat, k: Key, ts: nat)
    requires Inv(t) && Enabled(t, a) && t' == Step(t, a) && After(t, id, k, ts) && !Misses(t, a, id)
    ensures After(t', id, k, ts)
  {
    if t.gets[id].pos.Returned? { ReturnedStays(t, a, id); } else { UnderwayStep(t, a, id); }
  }

  lemma RunStep(states: seq<Tree>, acts: seq<Action>, i: nat)
    requires IsRun(states, acts) && i < |acts|
    ensures Enabled(states[i], acts[i]) && states[i + 1] == Step(states[i], acts[i]) && Inv(states[i])
  {
    InvRun(states, acts, i);
  }

  /** Get `id` does not go wrong from step `m` up to step `n`. */
  ghost predicate GoesRight(states: seq<Tree>, acts: seq<Action>, m: nat, n: nat, id: nat)
    requires n <= |acts| && n <= |states|
  {
    forall i :: m <= i < n ==> !Misses(states[i], acts[i], id)
  }

  lemma {:induction false} UnderwayRun(states: seq<Tree>, acts: seq<Action>, m: nat, n: nat, id: nat, k: Key, ts: nat)
    requires IsRun(states, acts) && m <= n < |states| && After(states[m], id, k, ts)
    requires GoesRight(states, acts, m, n, id)
    ensures After(states[n], id, k, ts)
    decreases n - m
  {
    if m < n {
      UnderwayRun(states, acts, m, n - 1, id, k, ts);
      RunStep(states, acts, n - 1);
      AfterStep(states[n - 1], acts[n - 1], states[n], id, k, ts);
    }
  }

  lemma ReturnedStays(t: Tree, a: Action, id: nat)
    requires Enabled(t, a) && id in t.gets && t.gets[id].pos.Returned?
    ensures id in Step(t, a).gets && Step(t, a).gets[id] == t.gets[id]
  {}

  /** Refinement, for each get by itself: from any moment at which the newest version it can see is in
      front of it, if none of its own steps goes wrong, it returns what the flat map of all versions ever
      inserted holds at its timestamp and at that moment; whatever the other gets do. */
  lemma ReadsFrom(states: seq<Tree>, acts: seq<Action>, m: nat, n: nat, id: nat)
    requires IsRun(states, acts) && m <= n < |acts| && Underway(states[m], id)
    requires GoesRight(states, acts, m, n + 1, id)
    requires id in states[n].gets && !states[n].gets[id].pos.Returned?
    ensures id in states[n + 1].gets
    ensures var g, after := states[n].gets[id], states[n + 1].gets[id];
            after.pos.Returned? ==>
              after.pos.answer == ObserveCell(Lookup(states[n].lsm.flat, g.key, g.ts), states[n].lsm.now)
  {
    UnderwayRun(states, acts, m, n, id, states[m].gets[id].key, states[m].gets[id].ts);
    InvRun(states, acts, n);
    UnderwayStep(states[n], acts[n], id);
  }

  /** In particular from its start. */
  lemma ReadsAreFlat(states: seq<Tree>, acts: seq<Action>, m: nat, n: nat, id: nat, k: Key, ts: nat)
    requires IsRun(states, acts) && m < n < |acts| && acts[m] == StartGet(id, k, ts)
    requires GoesRight(states, acts, m + 1, n + 1, id)
    requires id in states[n].gets && !states[n].gets[id].pos.Returned?
    ensures id in states[n + 1].gets && states[n].gets[id].key == k && states[n].gets[id].ts == ts
    ensures var after := states[n + 1].gets[id];
            after.pos.Returned? ==>
              after.pos.answer == ObserveCell(Lookup(states[n].lsm.flat, k, ts), states[n].lsm.now)
    ensures var after, now := states[n + 1].gets[id], states[n].lsm.now;
            after.pos.Returned? ==>
              match Lookup(states[n].lsm.flat, k, ts)
              case None => after.pos.answer == None
              case Some(p) =>
                after.pos.answer ==
                  if !p.deleted && (p.expiresAt <= 0 || now < p.expiresAt) then Some(p.value) else None
  {
    InvRun(states, acts, m);
    assert states[m + 1] == Step(states[m], acts[m]);
    StepStartGet(states[m], id, k, ts);
    UnderwayRun(states, acts, m + 1, n, id, k, ts);
    ReadsFrom(states, acts, m + 1, n, id);
  }

  // ---------------------------------------------------------------- every get comes to an end

  /** Where in the read a get is: memtables, then the levels one after the other, then the end. */
  function Stage(pos: Pos): nat {
    match pos
    case LoadMem => 0
    case LoadImm(_) => 1
    case Search(_) => 2
    case Scan(_, _) => 2
    case Copy(l) => 3 + 2 * l
    case Probe(l, _) => 4 + 2 * l
    case Returned(_) => 3 + 2 * LEVELS
  }

  /** How much is left to do there. */
  function LeftThere(pos: Pos): nat {
    match pos
    case Search(todo) => 2 * |todo| + 1
    case Scan(todo, _) => 2 * |todo|
    case Probe(_, files) => |files|
    case _ => 0
  }

  /** Until it has returned, a get can take a step, wherever it is. */
  lemma GetCanMove(t: Tree, g: Get) returns (hint: Option<Key>)
    requires Inv(t) && GetOk(t.lsm, t.mems, g) && !g.pos.Returned?
    ensures CanMove(t, g, hint)
  {
    InvAll(t);
    hint := None;
    match g.pos {
      case Search(todo) => hint := PredExists(t.mems[todo[0]], g.key);
      case Copy(l) => assert LevelShown(t, l);
      case _ =>
    }
  }

  lemma PredExists(m: L.Stage, k: Key) returns (hint: Option<Key>)
    ensures IsPred(m, k, hint)
  {
    hint := PredAmong(m, m.Keys, k);
  }

  lemma {:induction false} PredAmong(m: L.Stage, cells: set<Cell>, k: Key) returns (hint: Option<Key>)
    requires cells <= m.Keys
    ensures hint.Some? ==> ByteOrder.Lt(hint.value, k) && exists c :: c in m && c.key == hint.value
    ensures forall c :: c in cells && ByteOrder.Lt(c.key, k) ==> hint.Some? && !ByteOrder.Lt(hint.value, c.key)
    decreases |cells|
  {
    hint := None;
    if cells != {} {
      var c :| c in cells;
      hint := PredAmong(m, cells - {c}, k);
      if ByteOrder.Lt(c.key, k) && (hint.None? || ByteOrder.Lt(hint.value, c.key)) {
        var was := hint;
        hint := Some(c.key);
        ByteOrder.LtIrreflexive(c.key);
        forall d | d in cells && ByteOrder.Lt(d.key, k) ensures !ByteOrder.Lt(c.key, d.key) {
          if d != c && ByteOrder.Lt(c.key, d.key) { ByteOrder.LtTrans(was.value, c.key, d.key); }
        }
      }
    }
  }

  /** And every step takes it further: to a later stage of the read, or it has less to do where it is. There are
      finitely many of both, so it comes to an end, whatever the others do. */
  lemma MoveGoesOn(t: Tree, g: Get, hint: Option<Key>, cached: bool)
    requires Inv(t) && GetOk(t.lsm, t.mems, g) && CanMove(t, g, hint)
    ensures var pos := Move(t, g, hint, cached);
            && Stage(g.pos) < 3 + 2 * LEVELS
            && (Stage(g.pos) < Stage(pos) || (Stage(g.pos) == Stage(pos) && LeftThere(pos) < LeftThere(g.pos)))
  {}

  // ---------------------------------------------------------------- a get that is left alone

  /** The version that the step answers from. */
  ghost function Source(t: Tree, g: Get, cached: bool): Option<Cell> {
    if !Looks(t, g.pos) || LeavesOut(t, g, cached) then None
    else match g.pos
      case Scan(_, _) => NewestCell(LooksIn(t, g.pos), g.key, g.ts)
      case Probe(_, files) =>
        var e := F.TableGet(files[|files| - 1].table.entries, g.key, Some(g.ts));
        if e.None? then None else Some(e.value.cell)
  }

  datatype Choice = Choice(hint: Option<Key>, cached: bool)

  ghost function At(g: Get, pos: Pos): Get {
    g.(pos := pos)
  }

  /** The steps of a get while nothing else happens. */
  ghost predicate Alone(t: Tree, g: Get, path: seq<Pos>, choices: seq<Choice>) {
    && |path| == |choices| + 1 && path[0] == g.pos
    && forall i :: 0 <= i < |choices| ==>
         CanMove(t, At(g, path[i]), choices[i].hint)
         && path[i + 1] == Move(t, At(g, path[i]), choices[i].hint, choices[i].cached)
  }

  lemma SourceThere(t: Tree, g: Get, cached: bool)
    requires Source(t, g, cached).Some?
    ensures Looks(t, g.pos) && Source(t, g, cached).value in LooksIn(t, g.pos)
    ensures Finds(t, g, cached) == Some(LooksIn(t, g.pos)[Source(t, g, cached).value])
  {
    if g.pos.Probe? {
      var es := g.pos.files[|g.pos.files| - 1].table.entries;
      F.TableGetIn(es, g.key, Some(g.ts));
    }
  }

  lemma NoSource(t: Tree, g: Get, cached: bool)
    requires Looks(t, g.pos) && Source(t, g, cached).None?
    ensures Finds(t, g, cached).None?
  {}

  lemma {:induction false} AloneOk(t: Tree, g: Get, path: seq<Pos>, choices: seq<Choice>, n: nat)
    requires Inv(t) && GetOk(t.lsm, t.mems, g) && Alone(t, g, path, choices) && n < |path|
    ensures GetOk(t.lsm, t.mems, At(g, path[n]))
  {
    if n > 0 {
      AloneOk(t, g, path, choices, n - 1);
      MoveOk(t, At(g, path[n - 1]), choices[n - 1].hint, choices[n - 1].cached);
    }
  }

  /** Both are steps in the memtables, or in the same copy of a level. */
  predicate SameLoad(a: Pos, b: Pos) {
    if a.Probe? then b.Probe? && b.level == a.level else (a.Search? || a.Scan?) && (b.Search? || b.Scan?)
  }

  /** Step `j` leaves out `c`. */
  ghost predicate Skips(t: Tree, g: Get, path: seq<Pos>, choices: seq<Choice>, j: nat, c: Cell) {
    j < |choices| && j < |path| && Looks(t, path[j])
    && LeavesOut(t, At(g, path[j]), choices[j].cached) && c in LooksIn(t, path[j])
  }

  /** Step `k`, in the same load, does not leave out an older version. */
  ghost predicate Overtakes(t: Tree, g: Get, path: seq<Pos>, choices: seq<Choice>, j: nat, k: nat, c: Cell) {
    && j < k < |choices| && k < |path| && SameLoad(path[j], path[k])
    && Looks(t, path[k]) && !LeavesOut(t, At(g, path[k]), choices[k].cached)
    && var d := NewestCell(LooksIn(t, path[k]), g.key, g.ts); d.Some? && d.value.version < c.version
  }

  /** Step `j` spoils the answer: it looks across a restart point; or it leaves out the newest version the get
      can see, and nothing that is still to be looked at has it, or something with an older one that is
      already loaded comes first and is not left out itself. */
  ghost predicate Spoils(t: Tree, g: Get, path: seq<Pos>, choices: seq<Choice>, j: nat) {
    j < |choices| && j + 1 < |path| && Looks(t, path[j]) &&
    if LeavesOut(t, At(g, path[j]), choices[j].cached) then
      var c := NewestCell(t.lsm.flat, g.key, g.ts);
      && c.Some? && c.value in LooksIn(t, path[j])
      && (!Has(t, path[j + 1], c.value) || exists k: nat :: Overtakes(t, g, path, choices, j, k, c.value))
    else LooksAcross(At(g, path[j]))
  }

  ghost predicate NothingSpoils(t: Tree, g: Get, path: seq<Pos>, choices: seq<Choice>) {
    forall j: nat :: !Spoils(t, g, path, choices, j)
  }

  ghost predicate NeverMissed(t: Tree, g: Get, path: seq<Pos>, choices: seq<Choice>) {
    forall i :: 0 <= i < |choices| && i < |path| ==> !Missed(t, At(g, path[i]), choices[i].cached)
  }

  /** The last step answers from version `c`; or from none, `c` being none or dead and buried. */
  ghost predicate AnswersFrom(t: Tree, last: Get, cached: bool, c: Option<Cell>) {
    var from := Source(t, last, cached);
    from == c || (from.None? && c.value in t.lsm.stages[L.GRAVES])
  }

  /** What is not in front of a get does not come in front of it by its own steps. */
  lemma MoveHas(t: Tree, g: Get, hint: Option<Key>, cached: bool, c: Cell)
    requires Inv(t) && GetOk(t.lsm, t.mems, g) && CanMove(t, g, hint) && Has(t, Move(t, g, hint, cached), c)
    ensures Has(t, g.pos, c)
  {
    InvAll(t);
    if Looks(t, g.pos) { HasSplits(t, g.pos, c); } else { LoadHas(t, g, hint, cached, c); }
  }

  lemma {:induction false} GoneForGood(t: Tree, g: Get, path: seq<Pos>, choices: seq<Choice>, m: nat, n: nat, c: Cell)
    requires Inv(t) && GetOk(t.lsm, t.mems, g) && Alone(t, g, path, choices) && m <= n < |path| && !Has(t, path[m], c)
    ensures !Has(t, path[n], c)
  {
    if m < n {
      GoneForGood(t, g, path, choices, m, n - 1, c);
      AloneOk(t, g, path, choices, n - 1);
      if Has(t, path[n], c) { MoveHas(t, At(g, path[n - 1]), choices[n - 1].hint, choices[n - 1].cached, c); }
    }
  }

  lemma {:induction false} AloneOnWay(t: Tree, g: Get, path: seq<Pos>, choices: seq<Choice>, n: nat)
    requires Inv(t) && GetOk(t.lsm, t.mems, g) && Alone(t, g, path, choices) && n < |choices|
    requires OnWay(t, g) && NeverMissed(t, g, path, choices)
    ensures OnWay(t, At(g, path[n]))
  {
    if n > 0 {
      AloneOnWay(t, g, path, choices, n - 1);
      AloneOk(t, g, path, choices, n - 1);
      GetMoves(t, At(g, path[n - 1]), choices[n - 1].hint, choices[n - 1].cached);
    }
  }

  /** A last step that meets the newest version, if it meets any, answers from it. */
  lemma EndsRight(t: Tree, g: Get, hint: Option<Key>, cached: bool)
    requires Inv(t) && GetOk(t.lsm, t.mems, g) && CanMove(t, g, hint) && Move(t, g, hint, cached).Returned?
    requires var c := NewestCell(t.lsm.flat, g.key, g.ts); c.Some? ==> Has(t, g.pos, c.value)
    requires Looks(t, g.pos) && !LeavesOut(t, g, cached) ==> !LooksAcross(g) && HitsNewest(t, g)
    ensures AnswersFrom(t, g, cached, NewestCell(t.lsm.flat, g.key, g.ts))
  {
    if Looks(t, g.pos) {
      FindsThere(t, g, cached);
      SourceIsNewest(t, g, cached);
    } else if NewestCell(t.lsm.flat, g.key, g.ts).Some? {
      InvAll(t);
      LoadHas(t, g, hint, cached, NewestCell(t.lsm.flat, g.key, g.ts).value);
    }
  }

  ghost predicate HitsNewest(t: Tree, g: Get)
    requires Looks(t, g.pos)
  {
    var d := NewestCell(LooksIn(t, g.pos), g.key, g.ts);
    d.Some? ==> d == NewestCell(t.lsm.flat, g.key, g.ts)
  }

  /** A step that looks and goes on left out what is there, or there is nothing to see. */
  lemma WentOn(t: Tree, g: Get, hint: Option<Key>, cached: bool)
    requires CanMove(t, g, hint) && Looks(t, g.pos) && !Move(t, g, hint, cached).Returned?
    requires LeavesOut(t, g, cached) || !LooksAcross(g)
    ensures Move(t, g, hint, cached) == GoesOn(t, g.pos)
    ensures LeavesOut(t, g, cached) || NewestCell(LooksIn(t, g.pos), g.key, g.ts).None?
  {
    if !LeavesOut(t, g, cached) { FindsThere(t, g, cached); }
  }

  lemma GoesOnWhole(t: Tree, g: Get, path: seq<Pos>, choices: seq<Choice>, n: nat)
    requires Alone(t, g, path, choices) && n + 1 < |choices|
    ensures CanMove(t, At(g, path[n]), choices[n].hint) && !path[n + 1].Returned?
    ensures path[n + 1] == Move(t, At(g, path[n]), choices[n].hint, choices[n].cached)
  {
    assert CanMove(t, At(g, path[n + 1]), choices[n + 1].hint);
  }

  lemma HasNext(t: Tree, g: Get, path: seq<Pos>, choices: seq<Choice>, n: nat, c: Cell)
    requires Inv(t) && Alone(t, g, path, choices) && n + 1 < |choices| && Has(t, path[n], c)
    requires GetOk(t.lsm, t.mems, At(g, path[n]))
    requires NewestCell(t.lsm.flat, g.key, g.ts) == Some(c) && !Spoils(t, g, path, choices, n)
    ensures Has(t, path[n + 1], c)
  {
    var h, x := At(g, path[n]), choices[n];
    GoesOnWhole(t, g, path, choices, n);
    InvAll(t);
    if Looks(t, path[n]) {
      WentOn(t, h, x.hint, x.cached);
      HasSplits(t, path[n], c);
      if c in LooksIn(t, path[n]) { NewestThere(t, h, c); }
    } else {
      LoadHas(t, h, x.hint, x.cached, c);
    }
  }

  /** What is loaded is in order, or the newest version has been left out of it. */
  ghost predicate Led(t: Tree, g: Get, path: seq<Pos>, choices: seq<Choice>, n: nat, c: Cell)
    requires n < |path|
  {
    || Leads(Loaded(t, path[n]), g.key, g.ts, c)
    || exists j: nat :: j < n && Skips(t, g, path, choices, j, c) && SameLoad(path[j], path[n])
  }

  /** The newest version is in front of the get after `n` steps. */
  ghost predicate Steady(t: Tree, g: Get, path: seq<Pos>, choices: seq<Choice>, n: nat, c: Cell) {
    n < |path| && GetOk(t.lsm, t.mems, At(g, path[n])) && Has(t, path[n], c) && Led(t, g, path, choices, n, c)
  }

  lemma SteadyNext(t: Tree, g: Get, path: seq<Pos>, choices: seq<Choice>, n: nat, c: Cell)
    requires Inv(t) && Alone(t, g, path, choices) && n + 1 < |choices| && Steady(t, g, path, choices, n, c)
    requires NewestCell(t.lsm.flat, g.key, g.ts) == Some(c) && !Spoils(t, g, path, choices, n)
    ensures Steady(t, g, path, choices, n + 1, c)
  {
    HasNext(t, g, path, choices, n, c);
    LedNext(t, g, path, choices, n, c);
    MoveOk(t, At(g, path[n]), choices[n].hint, choices[n].cached);
  }

  /** If nothing spoils the answer, it stays so. */
  lemma {:induction false} AloneSteady(t: Tree, g: Get, path: seq<Pos>, choices: seq<Choice>, n: nat, c: Cell)
    requires Inv(t) && Alone(t, g, path, choices) && n < |choices| && Steady(t, g, path, choices, 0, c)
    requires NothingSpoils(t, g, path, choices) && NewestCell(t.lsm.flat, g.key, g.ts) == Some(c)
    ensures Steady(t, g, path, choices, n, c)
  {
    if n > 0 {
      AloneSteady(t, g, path, choices, n - 1, c);
      assert !Spoils(t, g, path, choices, n - 1);
      SteadyNext(t, g, path, choices, n - 1, c);
    }
  }

  lemma LedNext(t: Tree, g: Get, path: seq<Pos>, choices: seq<Choice>, n: nat, c: Cell)
    requires Inv(t) && Alone(t, g, path, choices) && n + 1 < |choices| && Has(t, path[n], c)
    requires GetOk(t.lsm, t.mems, At(g, path[n])) && Led(t, g, path, choices, n, c)
    requires NewestCell(t.lsm.flat, g.key, g.ts) == Some(c) && !Spoils(t, g, path, choices, n)
    ensures Led(t, g, path, choices, n + 1, c)
  {
    var h, x := At(g, path[n]), choices[n];
    GoesOnWhole(t, g, path, choices, n);
    if Leads(Loaded(t, path[n]), g.key, g.ts, c) {
      if Looks(t, path[n]) {
        WentOn(t, h, x.hint, x.cached);
        LookLed(t, g, path, choices, n, c);
      } else {
        LoadLeads(t, h, x.hint, x.cached, c);
      }
    } else {
      var j: nat :| j < n && Skips(t, g, path, choices, j, c) && SameLoad(path[j], path[n]);
      SameOrFresh(t, h, x.hint, x.cached, path[j]);
    }
  }

  lemma LookLed(t: Tree, g: Get, path: seq<Pos>, choices: seq<Choice>, n: nat, c: Cell)
    requires n < |choices| && n + 1 < |path| && Looks(t, path[n]) && path[n + 1] == GoesOn(t, path[n])
    requires Leads(Loaded(t, path[n]), g.key, g.ts, c) && c.key == g.key && c.version <= g.ts
    requires LeavesOut(t, At(g, path[n]), choices[n].cached) || NewestCell(LooksIn(t, path[n]), g.key, g.ts).None?
    ensures Led(t, g, path, choices, n + 1, c)
  {
    LoadedSplits(t, path[n]);
    if c in LooksIn(t, path[n]) {
      assert Newest(LooksIn(t, path[n]), g.key, g.ts).Some? by { assert c == Cell(g.key, c.version); }
      assert Skips(t, g, path, choices, n, c);
      assert path[n + 1].Copy? || SameLoad(path[n], path[n + 1]);
    }
  }

  /** A get stays in its load until it has looked at everything in it. */
  lemma SameOrFresh(t: Tree, g: Get, hint: Option<Key>, cached: bool, a: Pos)
    requires CanMove(t, g, hint) && !Move(t, g, hint, cached).Returned? && SameLoad(a, g.pos)
    ensures var pos := Move(t, g, hint, cached); SameLoad(a, pos) || Loaded(t, pos) == []
  {}

  /** If nothing spoils the answer, the last step answers from the newest version. */
  lemma UnspoiltEndsRight(t: Tree, g: Get, path: seq<Pos>, choices: seq<Choice>)
    requires Inv(t) && GetOk(t.lsm, t.mems, g) && OnWay(t, g) && NothingSpoils(t, g, path, choices)
    requires Alone(t, g, path, choices) && path[|choices|].Returned? && |choices| > 0
    ensures var n := |choices| - 1;
            AnswersFrom(t, At(g, path[n]), choices[n].cached, NewestCell(t.lsm.flat, g.key, g.ts))
  {
    var n := |choices| - 1;
    var h, x, c := At(g, path[n]), choices[n], NewestCell(t.lsm.flat, g.key, g.ts);
    AloneOk(t, g, path, choices, n);
    assert !Spoils(t, g, path, choices, n);
    if c.Some? {
      assert At(g, path[0]) == g;
      AloneSteady(t, g, path, choices, n, c.value);
      if Looks(t, path[n]) && !LeavesOut(t, h, x.cached) { SteadyHits(t, g, path, choices, n, c.value); }
    } else if Looks(t, path[n]) {
      NothingToHit(t, h);
    }
    EndsRight(t, h, x.hint, x.cached);
  }

  lemma NothingToHit(t: Tree, g: Get)
    requires Inv(t) && GetOk(t.lsm, t.mems, g) && Looks(t, g.pos) && NewestCell(t.lsm.flat, g.key, g.ts).None?
    ensures HitsNewest(t, g)
  {
    InvAll(t);
    var d := NewestCell(LooksIn(t, g.pos), g.key, g.ts);
    if d.Some? { LookedSourced(t, g, d.value); }
  }

  lemma SteadyHits(t: Tree, g: Get, path: seq<Pos>, choices: seq<Choice>, n: nat, c: Cell)
    requires Inv(t) && n < |choices| < |path| && Steady(t, g, path, choices, n, c) && NothingSpoils(t, g, path, choices)
    requires Looks(t, path[n]) && !LeavesOut(t, At(g, path[n]), choices[n].cached)
    requires NewestCell(t.lsm.flat, g.key, g.ts) == Some(c)
    ensures HitsNewest(t, At(g, path[n]))
  {
    var d := NewestCell(LooksIn(t, path[n]), g.key, g.ts);
    if d.Some? {
      NewestOrOlder(t, At(g, path[n]), c, d.value);
      if d.value != c { OlderHitSpoils(t, g, path, choices, n, c, d.value); }
    }
  }

  lemma NewestOrOlder(t: Tree, g: Get, c: Cell, d: Cell)
    requires Inv(t) && GetOk(t.lsm, t.mems, g) && Looks(t, g.pos) && NewestCell(t.lsm.flat, g.key, g.ts) == Some(c)
    requires NewestCell(LooksIn(t, g.pos), g.key, g.ts) == Some(d)
    ensures d == c || (c !in LooksIn(t, g.pos) && d.version < c.version)
  {
    InvAll(t);
    LookedSourced(t, g, d);
    if c in LooksIn(t, g.pos) { NewestThere(t, g, c); }
  }

  /** An older version that is met in order was overtaken because of a step before. */
  lemma OlderHitSpoils(t: Tree, g: Get, path: seq<Pos>, choices: seq<Choice>, n: nat, c: Cell, d: Cell)
    requires n < |choices| < |path| && Led(t, g, path, choices, n, c) && Looks(t, path[n])
    requires !LeavesOut(t, At(g, path[n]), choices[n].cached) && c !in LooksIn(t, path[n])
    requires NewestCell(LooksIn(t, path[n]), g.key, g.ts) == Some(d) && d.version < c.version
    requires NewestCell(t.lsm.flat, g.key, g.ts) == Some(c)
    ensures !NothingSpoils(t, g, path, choices)
  {
    LoadedSplits(t, path[n]);
    var j: nat :| j < n && Skips(t, g, path, choices, j, c) && SameLoad(path[j], path[n]);
    assert Overtakes(t, g, path, choices, j, n, c);
    assert Spoils(t, g, path, choices, j);
  }

  lemma SourceIsNewest(t: Tree, g: Get, cached: bool)
    requires Looks(t, g.pos) && !LeavesOut(t, g, cached) && !LooksAcross(g)
    ensures Source(t, g, cached) == NewestCell(LooksIn(t, g.pos), g.key, g.ts)
  {
    if g.pos.Probe? {
      var es := g.pos.files[|g.pos.files| - 1].table.entries;
      F.LookupIff(es, g.key, Some(g.ts));
      PickIsNewest(es, g.key, g.ts);
    }
  }

  lemma PickIsNewest(es: Run, k: Key, v: nat)
    requires Sorted(es)
    ensures var e := SST.Pick(es, k, Some(v));
            NewestCell(RunMap(es), k, v) == if e.None? then None else Some(e.value.cell)
  {
    PickBounds(es, RunMap(es), SST.Pick(es, k, Some(v)), k, v);
    NewestIs(RunMap(es), SST.Pick(es, k, Some(v)), k, v);
  }

  /** `e` is the newest visible entry of `m`. */
  ghost predicate Bounds(m: map<Cell, Payload>, e: Option<Entry>, k: Key, v: nat) {
    && (e.Some? ==> e.value.cell in m && e.value.cell.key == k && e.value.cell.version <= v)
    && forall n: nat :: n <= v && Cell(k, n) in m ==> e.Some? && n <= e.value.cell.version
  }

  lemma NewestIs(m: map<Cell, Payload>, e: Option<Entry>, k: Key, v: nat)
    requires Bounds(m, e, k, v)
    ensures NewestCell(m, k, v) == if e.None? then None else Some(e.value.cell)
  {
    if e.Some? { assert Cell(k, e.value.cell.version) in m; }
  }

  lemma PickBounds(es: Run, m: map<Cell, Payload>, e: Option<Entry>, k: Key, v: nat)
    requires Sorted(es) && m == RunMap(es) && e == SST.Pick(es, k, Some(v))
    ensures Bounds(m, e, k, v)
  {
    if e.Some? { PickInMap(es, k, v); }
    forall n: nat | n <= v && Cell(k, n) in m ensures e.Some? && n <= e.value.cell.version {
      PickAtLeast(es, m, k, v, n);
    }
  }

  lemma PickAtLeast(es: Run, m: map<Cell, Payload>, k: Key, v: nat, n: nat)
    requires Sorted(es) && m == RunMap(es) && Cell(k, n) in m && n <= v
    ensures SST.Pick(es, k, Some(v)).Some? && n <= SST.Pick(es, k, Some(v)).value.cell.version
  {
    var d := Entry(Cell(k, n), m[Cell(k, n)]);
    assert d in es;
    SST.PickNewest(es, k, Some(v), d);
  }

  lemma PickInMap(es: Run, k: Key, v: nat)
    requires Sorted(es) && SST.Pick(es, k, Some(v)).Some?
    ensures var c := SST.Pick(es, k, Some(v)).value.cell; c in RunMap(es) && c.key == k && c.version <= v
  {
    SST.PickIn(es, k, Some(v));
  }

  /** A lookup across a restart point answers from another version. */
  lemma AcrossIsWrong(t: Tree, g: Get, cached: bool)
    requires Inv(t) && GetOk(t.lsm, t.mems, g) && Looks(t, g.pos) && !LeavesOut(t, g, cached) && LooksAcross(g)
    ensures Source(t, g, cached).Some? && Source(t, g, cached) != NewestCell(t.lsm.flat, g.key, g.ts)
  {
    InvAll(t);
    var es := g.pos.files[|g.pos.files| - 1].table.entries;
    F.TableCrossingFinds(es, g.key, Some(g.ts));
    F.TableGetIn(es, g.key, Some(g.ts));
    F.LookupIff(es, g.key, Some(g.ts));
    OtherPick(t, g, es, F.TableGet(es, g.key, Some(g.ts)).value);
  }

  /** An entry of a table that is not its newest one is not the newest of all. */
  lemma OtherPick(t: Tree, g: Get, es: Run, e: Entry)
    requires MemsSourced(t) && GetOk(t.lsm, t.mems, g) && Looks(t, g.pos) && g.pos.Probe?
    requires es == g.pos.files[|g.pos.files| - 1].table.entries && e in es && Some(e) != SST.Pick(es, g.key, Some(g.ts))
    ensures NewestCell(t.lsm.flat, g.key, g.ts) != Some(e.cell)
  {
    OtherEntry(es, g.key, g.ts, e);
    if NewestCell(t.lsm.flat, g.key, g.ts) == Some(e.cell) { NewestThere(t, g, e.cell); }
  }

  lemma OtherEntry(es: Run, k: Key, v: nat, e: Entry)
    requires Sorted(es) && e in es && Some(e) != SST.Pick(es, k, Some(v))
    ensures e.cell in RunMap(es) && NewestCell(RunMap(es), k, v) != Some(e.cell)
  {
    PickIsNewest(es, k, v);
    if SST.Pick(es, k, Some(v)).Some? {
      SST.PickIn(es, k, Some(v));
      SortedDistinct(es);
      DistinctSingle(es);
    }
  }

  /** What a step spoils, left alone, is not put right. */
  lemma SpoiltEndsWrong(t: Tree, g: Get, path: seq<Pos>, choices: seq<Choice>, j: nat)
    requires Inv(t) && GetOk(t.lsm, t.mems, g) && Alone(t, g, path, choices)
    requires path[|choices|].Returned? && Spoils(t, g, path, choices, j)
    ensures var n := |choices| - 1;
            !AnswersFrom(t, At(g, path[n]), choices[n].cached, NewestCell(t.lsm.flat, g.key, g.ts))
  {
    var h, x := At(g, path[j]), choices[j];
    AloneOk(t, g, path, choices, j);
    if !LeavesOut(t, h, x.cached) {
      AcrossIsWrong(t, h, x.cached);
      WrongAtOnce(t, h, x.hint, x.cached);
      ReturnedLast(t, g, path, choices, j + 1);
    } else {
      var c := NewestCell(t.lsm.flat, g.key, g.ts).value;
      if Has(t, path[j + 1], c) {
        var k: nat :| Overtakes(t, g, path, choices, j, k, c);
        OlderEndsWrong(t, g, path, choices, k, c);
      } else {
        LostEndsWrong(t, g, path, choices, j + 1, c);
      }
    }
  }

  lemma OlderEndsWrong(t: Tree, g: Get, path: seq<Pos>, choices: seq<Choice>, k: nat, c: Cell)
    requires Inv(t) && GetOk(t.lsm, t.mems, g) && Alone(t, g, path, choices) && k < |choices|
    requires path[|choices|].Returned? && NewestCell(t.lsm.flat, g.key, g.ts) == Some(c)
    requires Looks(t, path[k]) && !LeavesOut(t, At(g, path[k]), choices[k].cached)
    requires var d := NewestCell(LooksIn(t, path[k]), g.key, g.ts); d.Some? && d.value.version < c.version
    ensures var n := |choices| - 1; !AnswersFrom(t, At(g, path[n]), choices[n].cached, Some(c))
  {
    var h, x := At(g, path[k]), choices[k];
    AloneOk(t, g, path, choices, k);
    if LooksAcross(h) { AcrossIsWrong(t, h, x.cached); } else { SourceIsNewest(t, h, x.cached); }
    WrongAtOnce(t, h, x.hint, x.cached);
    ReturnedLast(t, g, path, choices, k + 1);
  }

  lemma WrongAtOnce(t: Tree, g: Get, hint: Option<Key>, cached: bool)
    requires CanMove(t, g, hint) && Source(t, g, cached).Some?
    ensures Move(t, g, hint, cached).Returned?
  {
    SourceThere(t, g, cached);
  }

  lemma LostEndsWrong(t: Tree, g: Get, path: seq<Pos>, choices: seq<Choice>, i: nat, c: Cell)
    requires Inv(t) && GetOk(t.lsm, t.mems, g) && Alone(t, g, path, choices) && i < |choices|
    requires path[|choices|].Returned? && !Has(t, path[i], c)
    ensures !AnswersFrom(t, At(g, path[|choices| - 1]), choices[|choices| - 1].cached, Some(c))
  {
    var n := |choices| - 1;
    GoneForGood(t, g, path, choices, i, n, c);
    AloneOk(t, g, path, choices, n);
    GoneEndsWrong(t, At(g, path[n]), choices[n].hint, choices[n].cached, c);
  }

  lemma ReturnedLast(t: Tree, g: Get, path: seq<Pos>, choices: seq<Choice>, i: nat)
    requires Alone(t, g, path, choices) && i < |path| && path[i].Returned?
    ensures i == |choices|
  {
    assert i < |choices| ==> CanMove(t, At(g, path[i]), choices[i].hint);
  }

  lemma GoneEndsWrong(t: Tree, g: Get, hint: Option<Key>, cached: bool, c: Cell)
    requires Inv(t) && GetOk(t.lsm, t.mems, g) && CanMove(t, g, hint) && !Has(t, g.pos, c)
    requires Move(t, g, hint, cached).Returned?
    ensures !AnswersFrom(t, g, cached, Some(c))
  {
    InvAll(t);
    if Source(t, g, cached).Some? {
      SourceThere(t, g, cached);
      HasSplits(t, g.pos, c);
    } else if Looks(t, g.pos) {
      NoSource(t, g, cached);
    }
  }

  /** Exactness: left alone, a get answers from the newest version it can see, or from none if that is
      none or dead and buried, if and only if no step spoils the answer. */
  lemma AloneExact(t: Tree, g: Get, path: seq<Pos>, choices: seq<Choice>)
    requires Inv(t) && GetOk(t.lsm, t.mems, g) && !g.pos.Returned? && OnWay(t, g)
    requires Alone(t, g, path, choices) && path[|choices|].Returned?
    ensures |choices| > 0
    ensures var n := |choices| - 1;
            NothingSpoils(t, g, path, choices) <==>
              AnswersFrom(t, At(g, path[n]), choices[n].cached, NewestCell(t.lsm.flat, g.key, g.ts))
  {
    if NothingSpoils(t, g, path, choices) {
      UnspoiltEndsRight(t, g, path, choices);
    } else {
      var j: nat :| Spoils(t, g, path, choices, j);
      SpoiltEndsWrong(t, g, path, choices, j);
    }
  }

  /** If no step goes wrong, none spoils the answer. */
  lemma SpoiltIsMissed(t: Tree, g: Get, path: seq<Pos>, choices: seq<Choice>)
    requires Inv(t) && GetOk(t.lsm, t.mems, g) && !g.pos.Returned? && OnWay(t, g)
    requires Alone(t, g, path, choices) && path[|choices|].Returned? && NeverMissed(t, g, path, choices)
    ensures NothingSpoils(t, g, path, choices)
  {
    var n := |choices| - 1;
    var h, x := At(g, path[n]), choices[n];
    AloneOnWay(t, g, path, choices, n);
    AloneOk(t, g, path, choices, n);
    if Looks(t, path[n]) {
      InvAll(t);
      MeetsNewest(t, h);
    }
    EndsRight(t, h, x.hint, x.cached);
    AloneExact(t, g, path, choices);
  }

  /** So it is in every state of every run. */
  lemma AloneExactInRuns(states: seq<Tree>, acts: seq<Action>, n: nat, id: nat, path: seq<Pos>, choices: seq<Choice>)
    requires IsRun(states, acts) && n < |states| && Underway(states[n], id)
    requires Alone(states[n], states[n].gets[id], path, choices) && path[|choices|].Returned?
    ensures |choices| > 0
    ensures var t, g, m := states[n], states[n].gets[id], |choices| - 1;
            NothingSpoils(t, g, path, choices) <==>
              AnswersFrom(t, At(g, path[m]), choices[m].cached, NewestCell(t.lsm.flat, g.key, g.ts))
  {
    InvRun(states, acts, n);
    InvAll(states[n]);
    AloneExact(states[n], states[n].gets[id], path, choices);
  }
}
