/** The storage tree as a stack of stages that a read visits from the top: the active memtable,
    the immutable one, then levels 0 to 4. Rotation, flush and compaction are split into the
    pointer and slice updates a concurrent reader can see between, and a read visits one stage
    per step. */
module LsmStages {
  import opened Store

  type Stage = map<Cell, Payload>

  const MEM: Ix := 0
  const IMM: Ix := 1
  const L0: Ix := 2
  const BOTTOM: Ix := 6
  /** Not a stage of the tree: the dead versions that compaction dropped at the bottom. */
  const GRAVES: Ix := 7

  type Ix = i: nat | i < 8
  type Stack = s: seq<Stage> | |s| == 8 witness [map[], map[], map[], map[], map[], map[], map[], map[]]

  /** A compaction whose output is installed in stage `to` while its input is still in `from`. */
  datatype Move = Move(from: Ix, to: Ix, cells: set<Cell>)

  datatype Progress = At(stage: Ix) | Returned(answer: Option<Bytes>, at: int)

  datatype Reader = Reader(key: Key, ts: nat, progress: Progress)

  /** `flat` is everything ever inserted, `floor` the largest watermark a compaction used and
      `clock` the latest time one looked at; versions up to `horizon` have all been inserted. */
  datatype Lsm = Lsm(
    stages: Stack, rotating: bool, flushed: bool, moving: Option<Move>, readers: map<nat, Reader>,
    flat: map<Cell, Payload>, floor: nat, clock: int, horizon: nat, now: int)

  // ---------------------------------------------------------------- compaction, as a whole

  /** One merge: the cells taken from the two stages, what replaces them, and the watermark. */
  datatype Merge = Merge(from: Ix, to: Ix, upper: set<Cell>, lower: set<Cell>, output: Stage, minReadTs: nat)

  ghost function Inputs(s: Stack, g: Merge): Stage {
    (map c | c in s[g.to] && c in g.lower :: s[g.to][c]) + (map c | c in s[g.from] && c in g.upper :: s[g.from][c])
  }

  /** `q` may stand for `p` from time `now` on. */
  predicate StandsFor(p: Payload, q: Payload, now: int) {
    q == p || (Dead(p, now) && q.deleted)
  }

  ghost predicate HasKey(cells: set<Cell>, k: Key) {
    exists c :: c in cells && c.key == k
  }

  /** `c` is hidden from every snapshot at or above `ts` by a newer version. */
  ghost predicate Superseded(cells: map<Cell, Payload>, ts: nat, c: Cell) {
    exists v :: c.version < v <= ts && Cell(c.key, v) in cells
  }

  /** `c` is in stage `s` or in one below it, the graves included. */
  ghost predicate Below(l: Lsm, s: nat, c: Cell) {
    exists b: Ix :: s <= b && c in l.stages[b]
  }

  /** The version GC: an input is kept, superseded at the watermark, or the newest merged version
      of its key, dead, at the bottom, with nothing of its key kept. */
  ghost predicate Collected(g: Merge, inputs: Stage, now: int) {
    && (forall c :: c in g.output ==> c in inputs && StandsFor(inputs[c], g.output[c], now))
    && (forall c :: c in inputs && c !in g.output ==>
          || Superseded(inputs, g.minReadTs, c)
          || (g.to == BOTTOM && Dead(inputs[c], now)
              && (forall d :: d in inputs && d.key == c.key ==> d.version <= c.version)
              && (forall d :: d in g.output ==> d.key != c.key)))
  }

  /** The dead newest versions that the merge drops altogether. */
  ghost function Buried(s: Stack, g: Merge): Stage {
    var inputs := Inputs(s, g);
    map c | c in inputs && c !in g.output && !Superseded(inputs, g.minReadTs, c) :: inputs[c]
  }

  /** Everything a merge must satisfy, except that it may jump over a level: all versions of a merged
      key are merged. */
  ghost predicate MergeableIfNoJump(s: Stack, g: Merge, now: int) {
    && L0 <= g.from < g.to <= BOTTOM
    && g.upper <= s[g.from].Keys && g.lower <= s[g.to].Keys
    && (forall c :: c in s[g.from] && HasKey(g.upper, c.key) ==> c in g.upper)
    && (forall c :: c in s[g.to] && (HasKey(g.upper, c.key) || HasKey(g.lower, c.key)) ==> c in g.lower)
    && Collected(g, Inputs(s, g), now)
  }

  /** Nothing that moves down jumps over a version of its key. */
  ghost predicate NoJump(s: Stack, g: Merge) {
    forall b: Ix, c :: g.from < b < g.to && c in s[b] ==> !HasKey(g.upper, c.key)
  }

  ghost predicate Mergeable(s: Stack, g: Merge, now: int) {
    MergeableIfNoJump(s, g, now) && NoJump(s, g)
  }

  // ---------------------------------------------------------------- steps

  datatype Action =
    | Insert(cell: Cell, payload: Payload)
    | RotateImm
    | RotateMem
    | InstallL0
    | ClearImm
    | Install(merge: Merge)
    | Remove
    | StartRead(id: nat, key: Key, ts: nat)
    | ReadStage(id: nat)
    | RaiseHorizon(horizon: nat)
    | Tick(now: int)

  ghost predicate Reading(l: Lsm, id: nat) {
    id in l.readers && l.readers[id].progress.At?
  }

  ghost predicate Enabled(l: Lsm, a: Action) {
    match a
    case Insert(c, _) =>
      !l.rotating && c.version > l.horizon && forall d :: d in l.flat && d.key == c.key ==> d.version < c.version
    case RotateImm => !l.rotating && !l.flushed && l.stages[IMM] == map[]
    case RotateMem => l.rotating
    case InstallL0 => !l.rotating && !l.flushed && l.moving.None?
    case ClearImm => l.flushed
    case Install(g) =>
      && l.moving.None? && Mergeable(l.stages, g, l.now) && g.minReadTs <= l.horizon
      && forall id :: Reading(l, id) ==> g.minReadTs <= l.readers[id].ts
    case Remove => l.moving.Some?
    case StartRead(id, _, ts) => id !in l.readers && l.floor <= ts <= l.horizon
    case ReadStage(id) => Reading(l, id)
    case RaiseHorizon(h) => l.horizon <= h
    case Tick(now) => l.now <= now
  }

  ghost function Max(a: nat, b: nat): nat { if a < b then b else a }

  /** A reader looks at one stage and either answers from it or goes on below it. */
  ghost function Visit(l: Lsm, r: Reader): Reader
    requires r.progress.At?
  {
    var p := r.progress.stage;
    var hit := Lookup(l.stages[p], r.key, r.ts);
    if hit.Some? then r.(progress := Returned(Observe(hit.value, l.now), l.now))
    else if p >= BOTTOM then r.(progress := Returned(None, l.now))
    else r.(progress := At(p + 1))
  }

  ghost function DoInstall(l: Lsm, g: Merge): Lsm {
    l.(stages := l.stages[g.to := (l.stages[g.to] - g.lower) + g.output]
                         [GRAVES := l.stages[GRAVES] + Buried(l.stages, g)],
       moving := Some(Move(g.from, g.to, g.upper)), floor := Max(l.floor, g.minReadTs), clock := l.now)
  }

  ghost function Step(l: Lsm, a: Action): Lsm
    requires Enabled(l, a)
  {
    match a
    case Insert(c, p) => l.(stages := l.stages[MEM := l.stages[MEM][c := p]], flat := l.flat[c := p])
    case RotateImm => l.(stages := l.stages[IMM := l.stages[MEM]], rotating := true)
    case RotateMem => l.(stages := l.stages[MEM := map[]], rotating := false)
    case InstallL0 => l.(stages := l.stages[L0 := l.stages[L0] + l.stages[IMM]], flushed := true)
    case ClearImm => l.(stages := l.stages[IMM := map[]], flushed := false)
    case Install(g) => DoInstall(l, g)
    case Remove =>
      var m := l.moving.value;
      l.(stages := l.stages[m.from := l.stages[m.from] - m.cells], moving := None)
    case StartRead(id, k, ts) => l.(readers := l.readers[id := Reader(k, ts, At(MEM))])
    case ReadStage(id) => l.(readers := l.readers[id := Visit(l, l.readers[id])])
    case RaiseHorizon(h) => l.(horizon := h)
    case Tick(now) => l.(now := now)
  }

  const Empty := Lsm([map[], map[], map[], map[], map[], map[], map[], map[]], false, false, None, map[], map[],
      0, 0, 0, 0)

  ghost predicate Run(states: seq<Lsm>, acts: seq<Action>) {
    && |states| == |acts| + 1
    && states[0] == Empty
    && forall i :: 0 <= i < |acts| ==>
         Enabled(states[i], acts[i]) && states[i + 1] == Step(states[i], acts[i])
  }
}
