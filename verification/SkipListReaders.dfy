/** A lock-free lookup in the skip list, one pointer load per step, while a writer stores pointers
    in between. */
module SkipListReaders {
  import opened Store
  import opened ByteOrder
  import opened Entries
  import opened SkipList

  datatype World = World(data: seq<Entry>, fwd: seq<Tower>, lists: Lists, level: nat)

  ghost predicate Sound(w: World) {
    Wf(w.data, w.fwd, w.lists, w.level)
  }

  ghost function Key(w: World, n: Id): Bytes {
    KeyOf(w.data, n)
  }

  // ---------------------------------------------------------------- the writer

  datatype Write =
    | AddNode(entry: Entry)
    | SetLevel(level: nat)
    | SetPrivate(node: Id, i: nat, to: Option<Id>)
    | Link(node: Id, i: nat, before: Lists)

  /** The node behind which `n` goes. */
  ghost function Behind(w: World, n: Id, i: nat): Id
    requires i < TOWER
  {
    At(w.lists[i], Below(w.data, w.lists[i], Key(w, n)))
  }

  ghost predicate CanWrite(w: World, a: Write) {
    match a
    case AddNode(_) => true
    case SetLevel(l) => w.level <= l <= TOWER
    case SetPrivate(n, i, _) => i < TOWER && 0 < n < |w.data| == |w.fwd| && n !in w.lists[i]
    case Link(n, i, before) =>
      && i < TOWER && i < w.level && 0 < n < |w.data| == |w.fwd| && n !in w.lists[i]
      && Behind(w, n, i) < |w.fwd| && w.fwd[n][i] == NextAt(w.lists[i], Below(w.data, w.lists[i], Key(w, n)))
      && LinkedTo(w.data, before, w.lists, n, i) && AllSorted(w.data, before) && Nested(before)
  }

  ghost function Written(w: World, a: Write): World
    requires CanWrite(w, a)
  {
    match a
    case AddNode(e) => World(w.data + [e], w.fwd + [NO_POINTERS], w.lists, w.level)
    case SetLevel(l) => w.(level := l)
    case SetPrivate(n, i, to) => World(w.data, Point(w.fwd, n, i, to), w.lists, w.level)
    case Link(n, i, _) =>
      World(w.data, Point(w.fwd, Behind(w, n, i), i, Some(n)), w.lists[i := Put(w.data, w.lists[i], n)], w.level)
  }

  /** After every single store of the writer the structure is in order. */
  lemma WriteSound(w: World, a: Write)
    requires Sound(w) && CanWrite(w, a)
    ensures Sound(Written(w, a))
  {
    match a {
      case AddNode(e) => AppendKeeps(w.data, w.fwd, w.lists, w.level, e, NO_POINTERS);
      case SetLevel(_) =>
      case SetPrivate(n, i, to) => PrivateStore(w.data, w.fwd, w.lists, w.level, n, i, to);
      case Link(n, i, before) =>
        LinkKeeps(w.data, w.fwd, before, w.lists, w.level, n, i, Below(w.data, w.lists[i], Key(w, n)),
            Written(w, a).lists);
    }
  }

  // ---------------------------------------------------------------- the reader

  /** `passed`: since the last comparison a node was linked between `curr` and the key sought.
      `at` is level 0 when the candidate was loaded, `exact` whether it was loaded from the last
      node with a smaller key, `seen` how many versions have been looked at. */
  datatype Reader =
    | Search(curr: Id, i: nat)
    | Reload(curr: Id, passed: bool)
    | Scan(at: seq<Id>, exact: bool, passed: bool, next: Option<Id>, seen: nat, best: Option<Id>)
    | Done(at: seq<Id>, exact: bool, passed: bool, best: Option<Id>)

  ghost predicate Smaller(w: World, n: Option<Id>, k: Bytes) {
    n.Some? && Lt(Key(w, n.value), k)
  }

  ghost predicate Same(w: World, n: Option<Id>, k: Bytes) {
    n.Some? && Key(w, n.value) == k
  }

  ghost function Load(w: World, n: Id, i: nat): Option<Id> {
    if n < |w.fwd| && i < TOWER then w.fwd[n][i] else None
  }

  ghost function Version(w: World, n: Id): nat {
    if n < |w.data| then w.data[n].cell.version else 0
  }

  ghost function Better(w: World, n: Id, max: nat, best: Option<Id>): Option<Id> {
    if Version(w, n) <= max && (best.None? || Version(w, n) > Version(w, best.value)) then Some(n) else best
  }

  /** `curr` is the last node of level 0 with a smaller key. */
  ghost predicate IsPred(w: World, curr: Id, k: Bytes) {
    curr == At(w.lists[0], Below(w.data, w.lists[0], k))
  }

  ghost function Read(w: World, r: Reader, k: Bytes, max: nat): Reader {
    match r
    case Search(curr, i) =>
      var next := Load(w, curr, i);
      if Smaller(w, next, k) then Search(next.value, i)
      else if i > 0 then Search(curr, i - 1)
      else Reload(curr, false)
    case Reload(curr, passed) => Scan(w.lists[0], IsPred(w, curr, k), passed, Load(w, curr, 0), 0, None)
    case Scan(at, exact, passed, next, seen, best) =>
      if Same(w, next, k) then
        Scan(at, exact, passed, Load(w, next.value, 0), seen + 1, Better(w, next.value, max, best))
      else Done(at, exact, passed, best)
    case Done(_, _, _, _) => r
  }

  /** A node linked into level 0 behind `curr` and in front of the key sought. */
  ghost predicate Passes(w: World, a: Write, curr: Id, k: Bytes) {
    a.Link? && a.i == 0 && Lt(Key(w, a.node), k) && (curr == HEAD || Lt(Key(w, curr), Key(w, a.node)))
  }

  ghost function Witness(w: World, r: Reader, a: Write, k: Bytes): Reader {
    if r.Reload? then Reload(r.curr, r.passed || Passes(w, a, r.curr, k)) else r
  }

  datatype Step = Writes(write: Write) | Reads

  ghost predicate CanStep(w: World, s: Step) {
    s.Writes? ==> CanWrite(w, s.write)
  }

  ghost predicate Run(ws: seq<World>, rs: seq<Reader>, steps: seq<Step>, k: Bytes, max: nat) {
    && |ws| == |rs| == |steps| + 1
    && Sound(ws[0]) && rs[0] == Search(HEAD, ws[0].level - 1)
    && forall i :: 0 <= i < |steps| ==>
         CanStep(ws[i], steps[i]) && Steps(ws[i], rs[i], steps[i], ws[i + 1], rs[i + 1], k, max)
  }

  ghost predicate Steps(w: World, r: Reader, s: Step, w': World, r': Reader, k: Bytes, max: nat)
    requires CanStep(w, s)
  {
    match s
    case Writes(a) => w' == Written(w, a) && r' == Witness(w, r, a, k)
    case Reads => w' == w && r' == Read(w, r, k, max)
  }

  // ---------------------------------------------------------------- the versions of a key

  ghost function Leading(data: seq<Entry>, list: seq<Id>, k: Bytes): seq<Id> {
    if list != [] && KeyOf(data, list[0]) == k then [list[0]] + Leading(data, list[1..], k) else []
  }

  /** The nodes of `k` in a level. */
  ghost function KeyRun(data: seq<Entry>, list: seq<Id>, k: Bytes): seq<Id> {
    Leading(data, list[Below(data, list, k)..], k)
  }

  lemma {:induction false} LeadingAt(data: seq<Entry>, list: seq<Id>, k: Bytes)
    ensures var run := Leading(data, list, k);
            && |run| <= |list| && (forall j :: 0 <= j < |run| ==> run[j] == list[j] && KeyOf(data, run[j]) == k)
            && (|run| < |list| ==> KeyOf(data, list[|run|]) != k)
  {
    if list != [] && KeyOf(data, list[0]) == k { LeadingAt(data, list[1..], k); }
  }

  /** Everything at and behind the run, one step at a time. */
  lemma RunStep(data: seq<Entry>, list: seq<Id>, k: Bytes)
    requires list != []
    ensures Lt(KeyOf(data, list[0]), k) ==> KeyRun(data, list, k) == KeyRun(data, list[1..], k)
    ensures !Lt(KeyOf(data, list[0]), k) ==> KeyRun(data, list, k) == Leading(data, list, k)
  {
    if Lt(KeyOf(data, list[0]), k) {
      var b := Below(data, list[1..], k);
      assert list[1 + b..] == list[1..][b..];
    } else {
      assert list[0..] == list;
    }
  }

  lemma RunPutFront(data: seq<Entry>, list: seq<Id>, n: Id, k: Bytes)
    requires list != [] ==> !Lt(KeyOf(data, list[0]), KeyOf(data, n))
    ensures KeyRun(data, [n] + list, k) ==
        if KeyOf(data, n) == k then [n] + KeyRun(data, list, k) else KeyRun(data, list, k)
  {
    var kn := KeyOf(data, n);
    assert ([n] + list)[1..] == list;
    RunStep(data, [n] + list, k);
    LtIrreflexive(k);
    if !Lt(kn, k) && list != [] {
      NotLtTrans(KeyOf(data, list[0]), kn, k);
      RunStep(data, list, k);
      if kn != k { LtTotal(kn, k); }
    }
  }

  /** A new version of `k` goes to the front of its run; other keys leave the run alone. */
  lemma {:induction false} RunPut(data: seq<Entry>, list: seq<Id>, n: Id, k: Bytes)
    ensures KeyRun(data, Put(data, list, n), k) ==
              if KeyOf(data, n) == k then [n] + KeyRun(data, list, k) else KeyRun(data, list, k)
  {
    if list != [] && Lt(KeyOf(data, list[0]), KeyOf(data, n)) {
      var rest := Put(data, list[1..], n);
      assert ([list[0]] + rest)[1..] == rest;
      RunPut(data, list[1..], n, k);
      RunStep(data, list, k);
      RunStep(data, [list[0]] + rest, k);
      if !Lt(KeyOf(data, list[0]), k) { LeadingPut(data, list, n, k); }
    } else {
      RunPutFront(data, list, n, k);
    }
  }

  /** Behind the lower bound, only larger keys are put behind the first node. */
  lemma {:induction false} LeadingPut(data: seq<Entry>, list: seq<Id>, n: Id, k: Bytes)
    requires list != [] && Lt(KeyOf(data, list[0]), KeyOf(data, n)) && !Lt(KeyOf(data, list[0]), k)
    ensures KeyOf(data, n) != k && Leading(data, Put(data, list, n), k) == Leading(data, list, k)
  {
    var kn := KeyOf(data, n);
    var rest := Put(data, list[1..], n);
    assert Put(data, list, n)[1..] == rest;
    LtIrreflexive(k);
    if KeyOf(data, list[0]) == k {
      if list[1..] != [] && Lt(KeyOf(data, list[1]), kn) {
        LtTotal(KeyOf(data, list[1]), k);
        if !Lt(KeyOf(data, list[1]), k) { LeadingPut(data, list[1..], n, k); }
        else { assert Leading(data, list[1..], k) == [] && Leading(data, rest, k) == []; }
      }
    }
  }

  // ---------------------------------------------------------------- appending to the arena

  lemma {:induction false} RunAppend(data: seq<Entry>, e: Entry, list: seq<Id>, k: Bytes)
    requires Within(data, list)
    ensures KeyRun(data + [e], list, k) == KeyRun(data, list, k)
  {
    BelowAppend(data, e, list, k);
    LeadingAppend(data, e, list[Below(data, list, k)..], k);
  }

  lemma {:induction false} LeadingAppend(data: seq<Entry>, e: Entry, list: seq<Id>, k: Bytes)
    requires Within(data, list)
    ensures Leading(data + [e], list, k) == Leading(data, list, k)
  {
    if list != [] { LeadingAppend(data, e, list[1..], k); }
  }

  // ---------------------------------------------------------------- positions

  lemma {:induction false} BelowPut(data: seq<Entry>, list: seq<Id>, n: Id, k: Bytes)
    requires KeySorted(data, list)
    ensures Below(data, Put(data, list, n), k) == Below(data, list, k) + if Lt(KeyOf(data, n), k) then 1 else 0
  {
    var out := Put(data, list, n);
    if list != [] && Lt(KeyOf(data, list[0]), KeyOf(data, n)) {
      assert out[1..] == Put(data, list[1..], n);
      BelowPut(data, list[1..], n, k);
      if !Lt(KeyOf(data, list[0]), k) && Lt(KeyOf(data, n), k) {
        LtTrans(KeyOf(data, list[0]), KeyOf(data, n), k);
      }
    } else {
      assert out[1..] == list;
      if list != [] && !Lt(KeyOf(data, n), k) { NotLtTrans(KeyOf(data, list[0]), KeyOf(data, n), k); }
    }
  }

  /** `curr` is the node at place `p` of `list`. */
  ghost predicate Sits(list: seq<Id>, curr: Id, p: nat) {
    p <= |list| && At(list, p) == curr
  }

  lemma SitsOnce(data: seq<Entry>, list: seq<Id>, curr: Id, p: nat, q: nat)
    requires Proper(data, list) && Sits(list, curr, p) && Sits(list, curr, q)
    ensures p == q
  {}

  /** How a node's place changes when another is put. */
  lemma SitsPut(data: seq<Entry>, list: seq<Id>, n: Id, curr: Id, p: nat)
    requires Proper(data, list) && KeySorted(data, list) && Sits(list, curr, p)
    ensures Sits(Put(data, list, n), curr, if p > 0 && !Lt(KeyOf(data, curr), KeyOf(data, n)) then p + 1 else p)
  {
    PutInserted(data, list, n);
    if p > 0 { BelowSplits(data, list, KeyOf(data, n), p - 1); }
  }

  // ---------------------------------------------------------------- the invariant

  ghost predicate Standing(w: World, curr: Id, i: nat, k: Bytes)
    requires i < TOWER
  {
    curr == HEAD || (curr in w.lists[i] && Lt(Key(w, curr), k))
  }

  lemma StandingAt(w: World, curr: Id, i: nat, k: Bytes) returns (p: nat)
    requires Sound(w) && i < TOWER && Standing(w, curr, i, k)
    ensures Sits(w.lists[i], curr, p) && p <= Below(w.data, w.lists[i], k) && Load(w, curr, i) == NextAt(w.lists[i], p)
  {
    assert ListOk(w.data, w.fwd, w.lists, i);
    p := 0;
    if curr != HEAD {
      var q :| 0 <= q < |w.lists[i]| && w.lists[i][q] == curr;
      p := q + 1;
      BelowSplits(w.data, w.lists[i], k, q);
    }
    assert w.fwd[At(w.lists[i], p)][i] == NextAt(w.lists[i], p);
  }

  /** `best` is the newest of the versions up to `max` among the first `seen` of `run`. */
  ghost predicate BestOf(w: World, run: seq<Id>, seen: nat, max: nat, best: Option<Id>) {
    && (best.None? ==> forall j :: 0 <= j < seen && j < |run| ==> Version(w, run[j]) > max)
    && (best.Some? ==> best.value in run && Version(w, best.value) <= max)
    && (best.Some? ==> forall j :: 0 <= j < seen && j < |run| && Version(w, run[j]) <= max ==>
         Version(w, run[j]) <= Version(w, best.value))
  }

  ghost predicate Snapshot(w: World, at: seq<Id>) {
    Proper(w.data, at) && KeySorted(w.data, at)
  }

  ghost predicate Ends(list: seq<Id>, end: seq<Id>) {
    |end| <= |list| && forall j :: 0 <= j < |end| ==> end[j] == list[|list| - |end| + j]
  }

  /** The scan is somewhere in the run it started from, which new versions only extend in front. */
  ghost predicate Scanning(w: World, at: seq<Id>, next: Option<Id>, seen: nat, k: Bytes) {
    var run, now := KeyRun(w.data, at, k), KeyRun(w.data, w.lists[0], k);
    && Ends(now, run) && seen <= |run|
    && (if seen < |run| then next == Some(run[seen]) else !Same(w, next, k))
  }

  /** A key of level 0 lies between the one at `curr` and the key sought. */
  ghost predicate SomeBetween(w: World, curr: Id, k: Bytes) {
    exists m :: m in w.lists[0] && Between(w, curr, m, k)
  }

  ghost predicate Between(w: World, curr: Id, m: Id, k: Bytes) {
    Lt(Key(w, m), k) && (curr == HEAD || Lt(Key(w, curr), Key(w, m)))
  }

  ghost predicate OnTrack(w: World, r: Reader, k: Bytes, max: nat) {
    match r
    case Search(curr, i) => i < TOWER && Standing(w, curr, i, k)
    case Reload(curr, passed) =>
      Standing(w, curr, 0, k) && (IsPred(w, curr, k) <==> !passed) && (SomeBetween(w, curr, k) <==> passed)
    case Scan(at, exact, passed, next, seen, best) =>
      && (exact <==> !passed) && Snapshot(w, at) && (next.Some? ==> next.value < |w.data|)
      && (exact ==> Scanning(w, at, next, seen, k) && BestOf(w, KeyRun(w.data, at, k), seen, max, best))
      && (!exact ==> !Same(w, next, k) && best.None?)
    case Done(at, exact, passed, best) =>
      && (exact <==> !passed) && Snapshot(w, at)
      && (exact ==> BestOf(w, KeyRun(w.data, at, k), |at|, max, best))
      && (!exact ==> best.None?)
  }

  // ---------------------------------------------------------------- reader steps

  /** Behind the last smaller node there are no smaller ones. */
  lemma PredNone(w: World, curr: Id, k: Bytes)
    requires Sound(w) && Standing(w, curr, 0, k) && IsPred(w, curr, k)
    ensures !SomeBetween(w, curr, k)
  {
    assert ListOk(w.data, w.fwd, w.lists, 0);
    var list, b := w.lists[0], Below(w.data, w.lists[0], k);
    forall m | m in list ensures !Between(w, curr, m, k) {
      var q :| 0 <= q < |list| && list[q] == m;
      BelowSplits(w.data, list, k, q);
      if b > 0 {
        assert curr == list[b - 1];
        if q == b - 1 { LtIrreflexive(Key(w, m)); }
      }
    }
  }

  lemma ReadSearch(w: World, curr: Id, i: nat, k: Bytes, max: nat)
    requires Sound(w) && OnTrack(w, Search(curr, i), k, max)
    ensures OnTrack(w, Read(w, Search(curr, i), k, max), k, max)
  {
    var p := StandingAt(w, curr, i, k);
    if p < |w.lists[i]| {
      assert ListOk(w.data, w.fwd, w.lists, i);
      BelowSplits(w.data, w.lists[i], k, p);
    }
    if !Smaller(w, Load(w, curr, i), k) && i > 0 && curr != HEAD {
      assert Sub(w.lists[i], w.lists[i - 1]);
      SubMember(w.lists[i], w.lists[i - 1], curr);
    }
    if !Smaller(w, Load(w, curr, i), k) && i == 0 { PredNone(w, curr, k); }
  }

  /** The run of `k` as places of the level. */
  lemma RunPlaces(data: seq<Entry>, list: seq<Id>, k: Bytes)
    ensures var run, b := KeyRun(data, list, k), Below(data, list, k);
            && b + |run| <= |list| && (forall j :: 0 <= j < |run| ==> run[j] == list[b + j] && KeyOf(data, run[j]) == k)
            && (b + |run| < |list| ==> KeyOf(data, list[b + |run|]) != k)
  {
    LeadingAt(data, list[Below(data, list, k)..], k);
  }

  lemma ReadReload(w: World, curr: Id, passed: bool, k: Bytes, max: nat)
    requires Sound(w) && OnTrack(w, Reload(curr, passed), k, max)
    ensures OnTrack(w, Read(w, Reload(curr, passed), k, max), k, max)
  {
    var list := w.lists[0];
    var b := Below(w.data, list, k);
    var p := StandingAt(w, curr, 0, k);
    assert ListOk(w.data, w.fwd, w.lists, 0);
    RunPlaces(w.data, list, k);
    if IsPred(w, curr, k) {
      SitsOnce(w.data, list, curr, p, b);
    } else {
      BelowSplits(w.data, list, k, p);
      LtIrreflexive(k);
    }
  }

  /** Where the scan is in the level as it is now. */
  lemma RunPlace(w: World, at: seq<Id>, next: Option<Id>, seen: nat, k: Bytes) returns (q: nat)
    requires Sound(w) && Scanning(w, at, next, seen, k) && seen < |KeyRun(w.data, at, k)|
    ensures q < |w.lists[0]| && w.lists[0][q] == KeyRun(w.data, at, k)[seen] && next == Some(w.lists[0][q])
    ensures seen + 1 < |KeyRun(w.data, at, k)| ==> NextAt(w.lists[0], q + 1) == Some(KeyRun(w.data, at, k)[seen + 1])
    ensures seen + 1 == |KeyRun(w.data, at, k)| ==> !Same(w, NextAt(w.lists[0], q + 1), k)
  {
    var list := w.lists[0];
    var run, now := KeyRun(w.data, at, k), KeyRun(w.data, list, k);
    RunPlaces(w.data, list, k);
    q := Below(w.data, list, k) + |now| - |run| + seen;
    assert run[seen] == now[|now| - |run| + seen] == list[q];
    if seen + 1 < |run| { assert run[seen + 1] == now[|now| - |run| + seen + 1] == list[q + 1]; }
  }

  /** From one version of the key to the next. */
  lemma NextVersion(w: World, at: seq<Id>, next: Option<Id>, seen: nat, k: Bytes)
    requires Sound(w) && Scanning(w, at, next, seen, k) && Same(w, next, k)
    ensures Scanning(w, at, Load(w, next.value, 0), seen + 1, k) && next.value == KeyRun(w.data, at, k)[seen]
    ensures Load(w, next.value, 0).Some? ==> Load(w, next.value, 0).value < |w.data|
  {
    var q := RunPlace(w, at, next, seen, k);
    assert ListOk(w.data, w.fwd, w.lists, 0);
    assert w.fwd[At(w.lists[0], q + 1)][0] == NextAt(w.lists[0], q + 1);
  }

  lemma BestStep(w: World, run: seq<Id>, seen: nat, max: nat, best: Option<Id>)
    requires BestOf(w, run, seen, max, best) && seen < |run|
    ensures BestOf(w, run, seen + 1, max, Better(w, run[seen], max, best))
  {}

  lemma ReadScan(w: World, r: Reader, k: Bytes, max: nat)
    requires Sound(w) && r.Scan? && OnTrack(w, r, k, max)
    ensures OnTrack(w, Read(w, r, k, max), k, max)
  {
    var run := KeyRun(w.data, r.at, k);
    RunPlaces(w.data, r.at, k);
    if r.exact && Same(w, r.next, k) {
      NextVersion(w, r.at, r.next, r.seen, k);
      BestStep(w, run, r.seen, max, r.best);
    }
  }

  lemma ReadOnTrack(w: World, r: Reader, k: Bytes, max: nat)
    requires Sound(w) && OnTrack(w, r, k, max)
    ensures OnTrack(w, Read(w, r, k, max), k, max)
  {
    match r {
      case Search(curr, i) => ReadSearch(w, curr, i, k, max);
      case Reload(curr, passed) => ReadReload(w, curr, passed, k, max);
      case Scan(_, _, _, _, _, _) => ReadScan(w, r, k, max);
      case Done(_, _, _, _) =>
    }
  }

  // ---------------------------------------------------------------- writer steps

  lemma PutMember(data: seq<Entry>, list: seq<Id>, n: Id, m: Id)
    requires m in list
    ensures m in Put(data, list, n)
  {
    PutInserted(data, list, n);
    var i :| 0 <= i < |list| && list[i] == m;
    var b, out := Below(data, list, KeyOf(data, n)), Put(data, list, n);
    assert if i < b then out[i] == m else out[i + 1] == m;
  }

  lemma PutProper(data: seq<Entry>, list: seq<Id>, n: Id)
    requires Proper(data, list) && 0 < n < |data| && n !in list
    ensures Proper(data, Put(data, list, n))
  {
    PutInserted(data, list, n);
    InsertedProper(data, list, n, Below(data, list, KeyOf(data, n)), Put(data, list, n));
  }

  lemma PredIs(data: seq<Entry>, list: seq<Id>, curr: Id, p: nat, k: Bytes)
    requires Proper(data, list) && Sits(list, curr, p)
    ensures curr == At(list, Below(data, list, k)) <==> p == Below(data, list, k)
  {
    if curr == At(list, Below(data, list, k)) { SitsOnce(data, list, curr, p, Below(data, list, k)); }
  }

  /** Putting a node moves the lower bound away from `curr` exactly when it goes between them. */
  lemma PutBetween(data: seq<Entry>, list: seq<Id>, n: Id, curr: Id, p: nat, k: Bytes)
    requires Proper(data, list) && KeySorted(data, list) && 0 < n < |data| && n !in list
    requires Sits(list, curr, p) && p <= Below(data, list, k) && (p > 0 ==> Lt(KeyOf(data, curr), k))
    ensures curr == At(Put(data, list, n), Below(data, Put(data, list, n), k)) <==>
              curr == At(list, Below(data, list, k))
                  && !(Lt(KeyOf(data, n), k) && (p == 0 || Lt(KeyOf(data, curr), KeyOf(data, n))))
  {
    var kc, kn := KeyOf(data, curr), KeyOf(data, n);
    SitsPut(data, list, n, curr, p);
    BelowPut(data, list, n, k);
    PutProper(data, list, n);
    PredIs(data, list, curr, p, k);
    PredIs(data, Put(data, list, n), curr, if p > 0 && !Lt(kc, kn) then p + 1 else p, k);
    if p > 0 && !Lt(kc, kn) && !Lt(kn, k) { NotLtTrans(kc, kn, k); }
  }

  lemma LinkPasses(w: World, a: Write, curr: Id, k: Bytes)
    requires Sound(w) && CanWrite(w, a) && a.Link? && a.i == 0 && Standing(w, curr, 0, k)
    ensures IsPred(Written(w, a), curr, k) <==> IsPred(w, curr, k) && !Passes(w, a, curr, k)
  {
    assert ListOk(w.data, w.fwd, w.lists, 0);
    var p := StandingAt(w, curr, 0, k);
    PutBetween(w.data, w.lists[0], a.node, curr, p, k);
  }

  lemma PutFrom(data: seq<Entry>, list: seq<Id>, n: Id, m: Id)
    requires m in Put(data, list, n)
    ensures m == n || m in list
  {
    PutInserted(data, list, n);
  }

  lemma LinkBetween(w: World, a: Write, curr: Id, k: Bytes)
    requires Sound(w) && CanWrite(w, a) && a.Link? && a.i == 0
    ensures SomeBetween(Written(w, a), curr, k) <==> SomeBetween(w, curr, k) || Passes(w, a, curr, k)
  {
    var w' := Written(w, a);
    if SomeBetween(w', curr, k) {
      var m :| m in w'.lists[0] && Between(w', curr, m, k);
      PutFrom(w.data, w.lists[0], a.node, m);
      assert Between(w, curr, m, k);
    }
    if SomeBetween(w, curr, k) {
      var m :| m in w.lists[0] && Between(w, curr, m, k);
      PutMember(w.data, w.lists[0], a.node, m);
      assert Between(w', curr, m, k);
    }
    if Passes(w, a, curr, k) {
      PutHas(w.data, w.lists[0], a.node);
      assert Between(w', curr, a.node, k);
    }
  }

  lemma PutHas(data: seq<Entry>, list: seq<Id>, n: Id)
    ensures n in Put(data, list, n)
  {
    PutInserted(data, list, n);
    assert Put(data, list, n)[Below(data, list, KeyOf(data, n))] == n;
  }

  lemma LinkScanning(w: World, a: Write, at: seq<Id>, next: Option<Id>, seen: nat, k: Bytes)
    requires Sound(w) && CanWrite(w, a) && a.Link? && Scanning(w, at, next, seen, k)
    ensures Scanning(Written(w, a), at, next, seen, k)
  {
    if a.i == 0 {
      RunPut(w.data, w.lists[0], a.node, k);
      EndsCons(KeyRun(w.data, w.lists[0], k), KeyRun(w.data, at, k), a.node);
    }
  }

  lemma EndsCons(list: seq<Id>, end: seq<Id>, n: Id)
    requires Ends(list, end)
    ensures Ends([n] + list, end)
  {}

  lemma LinkOnTrack(w: World, r: Reader, a: Write, k: Bytes, max: nat)
    requires Sound(w) && CanWrite(w, a) && a.Link? && OnTrack(w, r, k, max)
    ensures OnTrack(Written(w, a), Witness(w, r, a, k), k, max)
  {
    match r {
      case Search(curr, i) =>
        if curr != HEAD && a.i == i { PutMember(w.data, w.lists[i], a.node, curr); }
      case Reload(curr, _) => LinkReload(w, r, a, k, max);
      case Scan(at, exact, _, next, seen, _) =>
        if exact { LinkScanning(w, a, at, next, seen, k); }
      case Done(_, _, _, _) =>
    }
  }

  lemma LinkReload(w: World, r: Reader, a: Write, k: Bytes, max: nat)
    requires Sound(w) && CanWrite(w, a) && a.Link? && r.Reload? && OnTrack(w, r, k, max)
    ensures OnTrack(Written(w, a), Witness(w, r, a, k), k, max)
  {
    if a.i == 0 {
      if r.curr != HEAD { PutMember(w.data, w.lists[0], a.node, r.curr); }
      LinkPasses(w, a, r.curr, k);
      LinkBetween(w, a, r.curr, k);
    }
  }

  lemma AppendSorted(data: seq<Entry>, e: Entry, list: seq<Id>)
    requires Proper(data, list) && KeySorted(data, list)
    ensures Proper(data + [e], list) && KeySorted(data + [e], list)
  {
    forall i, j | 0 <= i < j < |list| ensures !Lt(KeyOf(data + [e], list[j]), KeyOf(data + [e], list[i])) {
      assert !Lt(KeyOf(data, list[j]), KeyOf(data, list[i]));
    }
  }

  lemma AppendBest(w: World, w': World, run: seq<Id>, seen: nat, max: nat, best: Option<Id>)
    requires BestOf(w, run, seen, max, best) && Within(w.data, run) && |w'.data| > |w.data|
        && w'.data[..|w.data|] == w.data
    ensures BestOf(w', run, seen, max, best)
  {
    forall n: Id | n < |w.data| ensures Version(w', n) == Version(w, n) { assert w'.data[..|w.data|][n] == w.data[n]; }
  }

  lemma RunWithin(data: seq<Entry>, list: seq<Id>, k: Bytes)
    requires Within(data, list)
    ensures Within(data, KeyRun(data, list, k))
  {
    RunPlaces(data, list, k);
  }

  lemma AppendOnTrack(w: World, r: Reader, e: Entry, k: Bytes, max: nat)
    requires Sound(w) && OnTrack(w, r, k, max)
    ensures OnTrack(Written(w, AddNode(e)), r, k, max)
  {
    var w' := Written(w, AddNode(e));
    assert ListOk(w.data, w.fwd, w.lists, 0);
    match r {
      case Search(curr, i) => assert ListOk(w.data, w.fwd, w.lists, i);
      case Reload(curr, _) => BelowAppend(w.data, e, w.lists[0], k);
      case Scan(at, exact, _, next, seen, best) =>
        AppendSorted(w.data, e, at);
        RunAppend(w.data, e, at, k);
        RunAppend(w.data, e, w.lists[0], k);
        RunWithin(w.data, at, k);
        if exact { AppendBest(w, w', KeyRun(w.data, at, k), seen, max, best); }
      case Done(at, exact, _, best) =>
        AppendSorted(w.data, e, at);
        RunAppend(w.data, e, at, k);
        RunWithin(w.data, at, k);
        if exact { AppendBest(w, w', KeyRun(w.data, at, k), |at|, max, best); }
    }
  }

  lemma WriteOnTrack(w: World, r: Reader, a: Write, k: Bytes, max: nat)
    requires Sound(w) && CanWrite(w, a) && OnTrack(w, r, k, max)
    ensures OnTrack(Written(w, a), Witness(w, r, a, k), k, max)
  {
    match a {
      case Link(_, _, _) => LinkOnTrack(w, r, a, k, max);
      case AddNode(e) => AppendOnTrack(w, r, e, k, max);
      case SetLevel(_) => PrivateOnTrack(w, r, Written(w, a), k, max);
      case SetPrivate(_, _, _) => PrivateOnTrack(w, r, Written(w, a), k, max);
    }
  }

  /** A write that touches no list changes nothing for a reader. */
  lemma PrivateOnTrack(w: World, r: Reader, w': World, k: Bytes, max: nat)
    requires OnTrack(w, r, k, max) && w'.data == w.data && w'.lists == w.lists
    ensures OnTrack(w', r, k, max)
  {}

  // ---------------------------------------------------------------- every interleaving

  lemma {:induction false} RunOnTrack(ws: seq<World>, rs: seq<Reader>, steps: seq<Step>, k: Bytes, max: nat, n: nat)
    requires Run(ws, rs, steps, k, max) && n < |ws|
    ensures Sound(ws[n]) && OnTrack(ws[n], rs[n], k, max)
  {
    if n > 0 {
      RunOnTrack(ws, rs, steps, k, max, n - 1);
      match steps[n - 1] {
        case Writes(a) =>
          WriteSound(ws[n - 1], a);
          WriteOnTrack(ws[n - 1], rs[n - 1], a, k, max);
        case Reads => ReadOnTrack(ws[n - 1], rs[n - 1], k, max);
      }
    }
  }

  ghost predicate Visible(es: Entries.Run, k: Bytes, max: nat) {
    exists e :: e in es && e.cell.key == k && e.cell.version <= max
  }

  ghost function EntryOf(w: World, n: Option<Id>): Option<Entry> {
    if n.Some? && n.value < |w.data| then Some(w.data[n.value]) else None
  }

  /** The versions of a key in a level are those of its run. */
  lemma RunIsAll(data: seq<Entry>, list: seq<Id>, k: Bytes, i: nat)
    requires KeySorted(data, list) && i < |list| && KeyOf(data, list[i]) == k
    ensures Below(data, list, k) <= i < Below(data, list, k) + |KeyRun(data, list, k)|
  {
    RunPlaces(data, list, k);
    BelowSplits(data, list, k, i);
    LtIrreflexive(k);
    var p := Below(data, list, k) + |KeyRun(data, list, k)|;
    if p <= i { RunOfKey(data, list, k, p, i); }
  }

  lemma InRun(w: World, at: seq<Id>, k: Bytes, e: Entry) returns (j: nat)
    requires Snapshot(w, at) && e in Contents(w.data, at) && e.cell.key == k
    ensures j < |KeyRun(w.data, at, k)| && Version(w, KeyRun(w.data, at, k)[j]) == e.cell.version
  {
    var i :| 0 <= i < |at| && Contents(w.data, at)[i] == e;
    RunIsAll(w.data, at, k, i);
    RunPlaces(w.data, at, k);
    j := i - Below(w.data, at, k);
  }

  lemma RunHeld(w: World, at: seq<Id>, k: Bytes, n: Id)
    requires Snapshot(w, at) && n in KeyRun(w.data, at, k)
    ensures n < |w.data| && w.data[n] in Contents(w.data, at) && w.data[n].cell.key == k
  {
    var p := RunMember(w.data, at, k, n);
    assert Contents(w.data, at)[p] == w.data[n];
  }

  lemma RunMember(data: seq<Entry>, list: seq<Id>, k: Bytes, n: Id) returns (p: nat)
    requires n in KeyRun(data, list, k)
    ensures p < |list| && list[p] == n && KeyOf(data, n) == k
  {
    RunPlaces(data, list, k);
    var run := KeyRun(data, list, k);
    var j :| 0 <= j < |run| && run[j] == n;
    p := Below(data, list, k) + j;
  }

  lemma BestIsNewest(w: World, at: seq<Id>, k: Bytes, max: nat, best: Option<Id>)
    requires Snapshot(w, at) && BestOf(w, KeyRun(w.data, at, k), |at|, max, best)
    ensures IsNewest(Contents(w.data, at), k, max, EntryOf(w, best))
  {
    RunPlaces(w.data, at, k);
    forall e | e in Contents(w.data, at) && e.cell.key == k && e.cell.version <= max
      ensures best.Some? && e.cell.version <= Version(w, best.value)
    {
      var j := InRun(w, at, k, e);
    }
    if best.Some? { RunHeld(w, at, k, best.value); }
  }

  /** A lookup without locks, in every interleaving with a writer's pointer stores, returns the
      newest version of the list it loaded its candidate from, exactly when no node was linked
      between the node it stopped at and the key since it compared keys there, or when the list
      holds no version it may see. */
  lemma LookupExact(ws: seq<World>, rs: seq<Reader>, steps: seq<Step>, k: Bytes, max: nat, n: nat)
    requires Run(ws, rs, steps, k, max) && n < |ws| && rs[n].Done?
    ensures Within(ws[n].data, rs[n].at)
    ensures IsNewest(Contents(ws[n].data, rs[n].at), k, max, EntryOf(ws[n], rs[n].best)) <==>
              !rs[n].passed || !Visible(Contents(ws[n].data, rs[n].at), k, max)
  {
    RunOnTrack(ws, rs, steps, k, max, n);
    if rs[n].exact { BestIsNewest(ws[n], rs[n].at, k, max, rs[n].best); }
  }

  /** From the reload on the reader keeps what it started from. */
  lemma {:induction false} StartKept(ws: seq<World>, rs: seq<Reader>, steps: seq<Step>, k: Bytes, max: nat, j: nat,
      n: nat)
    requires Run(ws, rs, steps, k, max) && j < n < |ws| && rs[j].Reload? && steps[j].Reads?
    ensures rs[n].Scan? || rs[n].Done?
    ensures rs[n].at == ws[j].lists[0] && rs[n].passed == rs[j].passed && ws[j].data <= ws[n].data
  {
    if n == j + 1 {
      assert CanStep(ws[j], steps[j]) && Steps(ws[j], rs[j], steps[j], ws[n], rs[n], k, max);
    } else {
      StartKept(ws, rs, steps, k, max, j, n - 1);
      assert CanStep(ws[n - 1], steps[n - 1]) && Steps(ws[n - 1], rs[n - 1], steps[n - 1], ws[n], rs[n], k, max);
    }
  }

  /** What a lookup finds, told from the two moments that matter: nothing, if when it loads its candidate
      a key lies between the node where its search ended and the key sought, and otherwise the newest
      version that level 0 holds then. */
  lemma LookupFinds(ws: seq<World>, rs: seq<Reader>, steps: seq<Step>, k: Bytes, max: nat, j: nat, n: nat)
    requires Run(ws, rs, steps, k, max) && j < n < |ws| && rs[j].Reload? && steps[j].Reads? && rs[n].Done?
    ensures Within(ws[n].data, ws[j].lists[0])
    ensures SomeBetween(ws[j], rs[j].curr, k) ==> rs[n].best.None?
    ensures !SomeBetween(ws[j], rs[j].curr, k) ==>
              IsNewest(Contents(ws[n].data, ws[j].lists[0]), k, max, EntryOf(ws[n], rs[n].best))
  {
    RunOnTrack(ws, rs, steps, k, max, j);
    RunOnTrack(ws, rs, steps, k, max, n);
    StartKept(ws, rs, steps, k, max, j, n);
    LookupExact(ws, rs, steps, k, max, n);
  }

  // ---------------------------------------------------------------- a lookup that misses

  function Lone(first: Option<Id>): Tower {
    NO_POINTERS[0 := first]
  }

  ghost function Only(list: seq<Id>): Lists {
    [list, [], [], [], [], [], [], [], [], [], [], [], [], [], [], []]
  }

  lemma LoneSound(data: seq<Entry>)
    requires |data| == 2
    ensures Sound(World(data, [Lone(Some(1)), NO_POINTERS], Only([1]), 1))
  {
    var w := World(data, [Lone(Some(1)), NO_POINTERS], Only([1]), 1);
    forall i | 0 <= i < TOWER ensures ListOk(w.data, w.fwd, w.lists, i) {
      assert i > 0 ==> w.lists[i] == [];
    }
  }

  const SMALLER := Entry(Cell([1], 1), Payload([], false, 0))
  const SOUGHT := Entry(Cell([2], 1), Payload([], false, 0))

  /** The lookup of a key that is there and visible finds nothing: while it is on its way, a smaller
      key is inserted in front of it. */
  lemma LookupMisses() returns (ws: seq<World>, rs: seq<Reader>, steps: seq<Step>, k: Bytes)
    ensures |ws| == 7 && Run(ws, rs, steps, k, 1) && rs[6].Done? && rs[6].best.None?
    ensures Within(ws[0].data, ws[0].lists[0]) && Visible(Contents(ws[0].data, ws[0].lists[0]), k, 1)
  {
    k := [2];
    var w0 := World([SOUGHT, SOUGHT], [Lone(Some(1)), NO_POINTERS], Only([1]), 1);
    LoneSound(w0.data);
    var w2, w3, w4, a := InsertSmaller(w0);
    var scan := Scan([2, 1], false, true, Some(2), 0, None);
    ws := [w0, w0, w2, w3, w4, w4, w4];
    steps := [Reads, Writes(AddNode(SMALLER)), Writes(SetPrivate(2, 0, Some(1))), Writes(a), Reads, Reads];
    rs := [Search(HEAD, 0), Reload(HEAD, false), Reload(HEAD, false), Reload(HEAD, false), Reload(HEAD, true), scan,
           Done([2, 1], false, true, None)];
    assert !Lt([2], [2]) && Lt([1], [2]);
    assert Read(w0, rs[0], k, 1) == rs[1];
    assert Read(w4, rs[4], k, 1) == scan;
    assert Read(w4, scan, k, 1) == rs[6];
    assert Contents(w0.data, [1])[0] == SOUGHT;
  }

  lemma InsertSmaller(w0: World) returns (w2: World, w3: World, w4: World, a: Write)
    requires w0 == World([SOUGHT, SOUGHT], [Lone(Some(1)), NO_POINTERS], Only([1]), 1) && Sound(w0)
    ensures w2 == Written(w0, AddNode(SMALLER))
    ensures CanWrite(w2, SetPrivate(2, 0, Some(1))) && w3 == Written(w2, SetPrivate(2, 0, Some(1)))
    ensures a.Link? && a.i == 0 && a.node == 2 && CanWrite(w3, a) && w4 == Written(w3, a) && Key(w3, 2) == [1]
    ensures w4.lists[0] == [2, 1] && Load(w4, HEAD, 0) == Some(2) && Key(w4, 2) == [1]
        && Below(w4.data, [2, 1], [2]) == 1
  {
    w2 := Written(w0, AddNode(SMALLER));
    WriteSound(w0, AddNode(SMALLER));
    w3 := Written(w2, SetPrivate(2, 0, Some(1)));
    WriteSound(w2, SetPrivate(2, 0, Some(1)));
    a := Link(2, 0, w3.lists);
    assert Lt([1], [2]) && !Lt([2], [2]) && !Lt([2], [1]);
    var both: seq<Id> := [2, 1];
    assert both[1..] == [1];
    assert Below(w3.data, [1], [1]) == 0 && Below(w3.data, [1], [2]) == 0 && Put(w3.data, [1], 2) == [2, 1];
    forall j | 0 <= j < TOWER ensures KeySorted(w3.data, w3.lists[j]) { assert ListOk(w3.data, w3.fwd, w3.lists, j); }
    w4 := Written(w3, a);
  }
}
