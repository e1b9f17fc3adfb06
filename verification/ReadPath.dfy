/** The read path as it runs: a get loads the two memtable pointers, searches each memtable in two
    steps, and then copies one level after the other and probes the tables of the copy, while writers
    insert, memtables rotate, and compactions replace tables and close them. */
module ReadPath {
  import opened Store
  import opened ByteOrder
  import opened Entries
  import opened Tables
  import L = LsmStages

  const LEVELS := 5

  /** A table file; a compaction makes new ones and closes old ones. */
  datatype File = File(id: nat, table: Table)

  function Shown(fs: seq<File>): Level {
    seq(|fs|, i requires 0 <= i < |fs| => fs[i].table)
  }

  /** How far a get has come. Memtables are named by their generation; `curr` is the key of the node
      where the search in the first of them ended, none for the head. */
  datatype Pos =
    | LoadMem
    | LoadImm(mem: nat)
    | Search(todo: seq<nat>)
    | Scan(todo: seq<nat>, curr: Option<Key>)
    | Copy(level: nat)
    | Probe(level: nat, files: seq<File>)
    | Returned(answer: Option<Bytes>)

  datatype Get = Get(key: Key, ts: nat, pos: Pos)

  /** `lsm` is the tree as stages; `mems` are the memtables of all generations, the last one active, and
      `imm` is the immutable one. */
  datatype Tree = Tree(
    lsm: L.Lsm, mems: seq<L.Stage>, imm: Option<nat>, levels: seq<seq<File>>, made: set<nat>, closed: set<nat>,
    gets: map<nat, Get>)

  // ---------------------------------------------------------------- what a get does

  /** The last key in front of `k`, as a search finds it. */
  ghost predicate IsPred(m: L.Stage, k: Key, curr: Option<Key>) {
    && (curr.Some? ==> Lt(curr.value, k) && exists c :: c in m && c.key == curr.value)
    && !Passed(m, k, curr)
  }

  /** A key stands between the node where the search ended and the key sought. */
  ghost predicate Passed(m: L.Stage, k: Key, curr: Option<Key>) {
    exists c :: c in m && Lt(c.key, k) && (curr.None? || Lt(curr.value, c.key))
  }

  /** What the scan of a memtable finds: nothing, if a smaller key has been linked behind `curr`. */
  ghost function MemFinds(m: L.Stage, k: Key, ts: nat, curr: Option<Key>): Option<Payload> {
    if Passed(m, k, curr) then None else Lookup(m, k, ts)
  }

  /** What the probe of a table finds: nothing, if it is closed and its block is not cached. */
  ghost function FileFinds(closed: set<nat>, f: File, k: Key, ts: nat, cached: bool): Option<Payload>
    requires TableOk(f.table)
  {
    if f.id in closed && !cached then None else TableHit(f.table, k, ts)
  }

  ghost predicate FilesOk(fs: seq<File>) {
    forall i :: 0 <= i < |fs| ==> TableOk(fs[i].table)
  }

  ghost predicate CanMove(t: Tree, g: Get, hint: Option<Key>) {
    match g.pos
    case LoadMem => t.mems != []
    case LoadImm(_) => true
    case Search(todo) => todo != [] && todo[0] < |t.mems| && IsPred(t.mems[todo[0]], g.key, hint)
    case Scan(todo, _) => todo != [] && todo[0] < |t.mems|
    case Copy(l) => l < |t.levels|
    case Probe(_, files) => FilesOk(files)
    case Returned(_) => false
  }

  /** A hit is returned; otherwise the get goes on at `pos`. */
  ghost function Answered(hit: Option<Payload>, now: int, pos: Pos): Pos {
    if hit.Some? then Returned(Observe(hit.value, now)) else pos
  }

  /** The get is about to look into a memtable or a table. */
  ghost predicate Looks(t: Tree, pos: Pos) {
    match pos
    case Scan(todo, _) => todo != [] && todo[0] < |t.mems|
    case Probe(_, files) => files != [] && FilesOk(files)
    case _ => false
  }

  /** Where it goes on if it finds nothing there. */
  ghost function GoesOn(t: Tree, pos: Pos): Pos
    requires Looks(t, pos)
  {
    match pos
    case Scan(todo, _) => if |todo| > 1 then Search(todo[1..]) else Copy(0)
    case Probe(l, files) => Probe(l, files[..|files| - 1])
  }

  /** What it finds there. */
  ghost function Finds(t: Tree, g: Get, cached: bool): Option<Payload>
    requires Looks(t, g.pos)
  {
    match g.pos
    case Scan(todo, curr) => MemFinds(t.mems[todo[0]], g.key, g.ts, curr)
    case Probe(_, files) => FileFinds(t.closed, files[|files| - 1], g.key, g.ts, cached)
  }

  /** The next step of a get. `hint` is where a search ends, `cached` whether a block is in the cache. */
  ghost function Move(t: Tree, g: Get, hint: Option<Key>, cached: bool): Pos
    requires CanMove(t, g, hint)
  {
    match g.pos
    case LoadMem => LoadImm(|t.mems| - 1)
    case LoadImm(m) => Search(if t.imm.Some? then [m, t.imm.value] else [m])
    case Search(todo) => Scan(todo, hint)
    case Scan(_, _) => Answered(Finds(t, g, cached), t.lsm.now, GoesOn(t, g.pos))
    case Copy(l) => Probe(l, t.levels[l])
    case Probe(l, files) =>
      if files != [] then Answered(Finds(t, g, cached), t.lsm.now, GoesOn(t, g.pos))
      else if l + 1 < LEVELS then Copy(l + 1) else Returned(None)
    case Returned(_) => g.pos
  }

  ghost function Moved(t: Tree, id: nat, hint: Option<Key>, cached: bool): Tree
    requires id in t.gets && CanMove(t, t.gets[id], hint)
  {
    t.(gets := t.gets[id := t.gets[id].(pos := Move(t, t.gets[id], hint, cached))])
  }

  // ---------------------------------------------------------------- how a get goes wrong

  /** The newest version of `k` up to `ts`. */
  ghost function NewestCell(m: L.Stage, k: Key, ts: nat): Option<Cell> {
    var v := Newest(m, k, ts);
    if v.None? then None else Some(Cell(k, v.value))
  }

  /** What the next lookup is in: a memtable or the content of a table. */
  ghost function LooksIn(t: Tree, pos: Pos): L.Stage
    requires Looks(t, pos)
  {
    match pos
    case Scan(todo, _) => t.mems[todo[0]]
    case Probe(_, files) => RunMap(files[|files| - 1].table.entries)
  }

  /** `c` is in something that the get has loaded and not looked at, or in a stage it has not loaded. */
  ghost predicate Has(t: Tree, pos: Pos, c: Cell) {
    match pos
    case LoadMem => L.Below(t.lsm, L.MEM, c)
    case LoadImm(m) => (m < |t.mems| && c in t.mems[m]) || L.Below(t.lsm, L.IMM, c)
    case Search(todo) => InSome(t.mems, todo, c) || L.Below(t.lsm, L.L0, c)
    case Scan(todo, _) => InSome(t.mems, todo, c) || L.Below(t.lsm, L.L0, c)
    case Copy(l) => L.Below(t.lsm, L.L0 + l, c)
    case Probe(l, files) => InFiles(files, c) || L.Below(t.lsm, L.L0 + l + 1, c)
    case Returned(_) => false
  }

  ghost predicate InSome(mems: seq<L.Stage>, todo: seq<nat>, c: Cell) {
    exists i :: 0 <= i < |todo| && todo[i] < |mems| && c in mems[todo[i]]
  }

  ghost predicate InFiles(files: seq<File>, c: Cell) {
    exists i, e :: 0 <= i < |files| && e in files[i].table.entries && e.cell == c
  }

  /** The lookup leaves everything out: a smaller key has been linked meanwhile, or the table has been
      closed meanwhile. */
  ghost predicate LeavesOut(t: Tree, g: Get, cached: bool)
    requires Looks(t, g.pos)
  {
    match g.pos
    case Scan(todo, curr) => Passed(t.mems[todo[0]], g.key, curr)
    case Probe(_, files) => files[|files| - 1].id in t.closed && !cached
  }

  ghost predicate LooksAcross(g: Get) {
    g.pos.Probe? && g.pos.files != [] && TableOk(g.pos.files[|g.pos.files| - 1].table)
      && Crosses(g.pos.files[|g.pos.files| - 1].table, g.key, g.ts)
  }

  ghost function FileMap(f: File): L.Stage {
    if TableOk(f.table) then RunMap(f.table.entries) else map[]
  }

  /** The tables of a copy in the order in which they are probed. */
  ghost function FileMaps(files: seq<File>): seq<L.Stage> {
    seq(|files|, i requires 0 <= i < |files| => FileMap(files[|files| - 1 - i]))
  }

  ghost function MemMaps(mems: seq<L.Stage>, todo: seq<nat>): seq<L.Stage> {
    seq(|todo|, i requires 0 <= i < |todo| => if todo[i] < |mems| then mems[todo[i]] else map[])
  }

  /** What the get has loaded and not looked at, in the order in which it will be looked at. */
  ghost function Loaded(t: Tree, pos: Pos): seq<L.Stage> {
    match pos
    case LoadImm(m) => MemMaps(t.mems, [m])
    case Search(todo) => MemMaps(t.mems, todo)
    case Scan(todo, _) => MemMaps(t.mems, todo)
    case Probe(_, files) => FileMaps(files)
    case _ => []
  }

  /** Of `ms`, the first that holds a version of `k` up to `ts` holds `c`. */
  ghost predicate Leads(ms: seq<L.Stage>, k: Key, ts: nat, c: Cell) {
    ms != [] && c !in ms[0] ==> Newest(ms[0], k, ts).None? && Leads(ms[1..], k, ts, c)
  }

  /** The step goes wrong: it looks across a restart point; or it leaves out the newest version there, and
      nothing that is still to be looked at has that version, or something already loaded that has an older
      one comes first. */
  ghost predicate Missed(t: Tree, g: Get, cached: bool) {
    Looks(t, g.pos) &&
    if LeavesOut(t, g, cached) then
      var c := NewestCell(LooksIn(t, g.pos), g.key, g.ts);
      c.Some? && !(Has(t, GoesOn(t, g.pos), c.value)
                   && Leads(Loaded(t, GoesOn(t, g.pos)), g.key, g.ts, c.value))
    else LooksAcross(g)
  }

  // ---------------------------------------------------------------- what the others do

  ghost predicate CanStart(t: Tree, id: nat, ts: nat) {
    id !in t.gets && t.lsm.floor <= ts <= t.lsm.horizon
  }

  ghost function Started(t: Tree, id: nat, k: Key, ts: nat): Tree {
    t.(gets := t.gets[id := Get(k, ts, LoadMem)])
  }

  ghost function Inserted(t: Tree, c: Cell, p: Payload): Tree
    requires t.mems != []
  {
    var n := |t.mems| - 1;
    t.(lsm := t.lsm.(stages := t.lsm.stages[L.MEM := t.lsm.stages[L.MEM][c := p]], flat := t.lsm.flat[c := p]),
       mems := t.mems[n := t.mems[n][c := p]])
  }

  /** The new files of a level: those kept and those made. */
  ghost predicate NewFiles(t: Tree, l: nat, fs: seq<File>, cells: L.Stage)
    requires l < |t.levels|
  {
    && LevelOk(Shown(fs)) && (l > 0 ==> KeyDisjoint(Shown(fs))) && Content(Shown(fs)) == cells
    && forall f :: f in fs ==> f in t.levels[l] || f.id !in t.made
  }

  ghost function Ids(fs: seq<File>): set<nat> {
    set f | f in fs :: f.id
  }

  ghost predicate CanInstall(t: Tree, g: L.Merge, fs: seq<File>) {
    && |t.levels| == LEVELS && L.L0 <= g.from < g.to <= L.BOTTOM
    && NewFiles(t, g.to - L.L0, fs, L.DoInstall(t.lsm, g).stages[g.to])
  }

  /** A merge spares the snapshots of the gets that are on their way. */
  ghost predicate Spares(t: Tree, ts: nat) {
    forall id :: id in t.gets && !t.gets[id].pos.Returned? ==> ts <= t.gets[id].ts
  }

  ghost function Installed(t: Tree, g: L.Merge, fs: seq<File>): Tree
    requires CanInstall(t, g, fs)
  {
    t.(lsm := L.DoInstall(t.lsm, g), levels := t.levels[g.to - L.L0 := fs], made := t.made + Ids(fs))
  }

  datatype Action =
    | Insert(cell: Cell, payload: Payload)
    | RotateImm
    | RotateMem
    | InstallL0(file: Option<File>)
    | ClearImm
    | Install(merge: L.Merge, files: seq<File>)
    | Remove(files: seq<File>)
    | Close(id: nat)
    | StartGet(id: nat, key: Key, ts: nat)
    | GetStep(id: nat, hint: Option<Key>, cached: bool)
    | Pass(horizon: nat, now: int)

  /** The maintenance of the tree: rotation, flush, compaction, and closing tables that a compaction has
      taken out of their level. A flush of an empty memtable makes no table. */
  ghost predicate CanMaintain(t: Tree, a: Action) {
    match a
    case RotateImm => L.Enabled(t.lsm, L.RotateImm)
    case RotateMem => L.Enabled(t.lsm, L.RotateMem)
    case InstallL0(None) => L.Enabled(t.lsm, L.InstallL0) && t.lsm.stages[L.IMM] == map[]
    case InstallL0(Some(f)) =>
      && L.Enabled(t.lsm, L.InstallL0) && |t.levels| == LEVELS && f.id !in t.made
      && TableOk(f.table) && RunMap(f.table.entries) == t.lsm.stages[L.IMM]
    case ClearImm => L.Enabled(t.lsm, L.ClearImm)
    case Remove(fs) =>
      && L.Enabled(t.lsm, L.Remove) && L.L0 <= t.lsm.moving.value.from <= L.BOTTOM && |t.levels| == LEVELS
      && var from := t.lsm.moving.value.from;
         && (forall f :: f in fs ==> f in t.levels[from - L.L0])
         && NewFiles(t, from - L.L0, fs, L.Step(t.lsm, L.Remove).stages[from])
    case Close(id) =>
      id in t.made && t.lsm.moving.None? && forall l, f :: 0 <= l < |t.levels| && f in t.levels[l] ==> f.id != id
    case _ => false
  }

  ghost function Maintained(t: Tree, a: Action): Tree
    requires CanMaintain(t, a)
  {
    match a
    case RotateImm => t.(lsm := L.Step(t.lsm, L.RotateImm), imm := if t.mems == [] then None else Some(|t.mems| - 1))
    case RotateMem => t.(lsm := L.Step(t.lsm, L.RotateMem), mems := t.mems + [map[]])
    case InstallL0(None) => t.(lsm := L.Step(t.lsm, L.InstallL0))
    case InstallL0(Some(f)) =>
      t.(lsm := L.Step(t.lsm, L.InstallL0), levels := t.levels[0 := t.levels[0] + [f]], made := t.made + {f.id})
    case ClearImm => t.(lsm := L.Step(t.lsm, L.ClearImm), imm := None)
    case Remove(fs) => t.(lsm := L.Step(t.lsm, L.Remove), levels := t.levels[t.lsm.moving.value.from - L.L0 := fs])
    case Close(id) => t.(closed := t.closed + {id})
    case _ => t
  }

  ghost predicate Enabled(t: Tree, a: Action) {
    match a
    case Insert(c, p) => t.mems != [] && L.Enabled(t.lsm, L.Insert(c, p))
    case Install(g, fs) => L.Enabled(t.lsm, L.Install(g)) && CanInstall(t, g, fs) && Spares(t, g.minReadTs)
    case StartGet(id, _, ts) => CanStart(t, id, ts)
    case GetStep(id, hint, _) => id in t.gets && CanMove(t, t.gets[id], hint)
    case Pass(horizon, now) => t.lsm.horizon <= horizon && t.lsm.now <= now
    case _ => CanMaintain(t, a)
  }

  ghost function Step(t: Tree, a: Action): Tree
    requires Enabled(t, a)
  {
    match a
    case Insert(c, p) => Inserted(t, c, p)
    case Install(g, fs) => Installed(t, g, fs)
    case StartGet(id, k, ts) => Started(t, id, k, ts)
    case GetStep(id, hint, cached) => Moved(t, id, hint, cached)
    case Pass(horizon, now) => t.(lsm := t.lsm.(horizon := horizon, now := now))
    case _ => Maintained(t, a)
  }

  const Empty := Tree(L.Empty, [map[]], None, [[], [], [], [], []], {}, {}, map[])

  ghost predicate IsRun(states: seq<Tree>, acts: seq<Action>) {
    && |states| == |acts| + 1
    && states[0] == Empty
    && forall i :: 0 <= i < |acts| ==> Enabled(states[i], acts[i]) && states[i + 1] == Step(states[i], acts[i])
  }

  /** Get `id` goes wrong in this step. */
  ghost predicate Misses(t: Tree, a: Action, id: nat) {
    a.GetStep? && a.id == id && id in t.gets && Missed(t, t.gets[id], a.cached)
  }
}
