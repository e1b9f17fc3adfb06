/** Large values live in value-log segments and the tree holds pointers to them. A segment may be
    unlinked once compaction has charged as many bytes to it as were written to it. */
module ValueLog {
  import opened Store
  import opened Entries
  import opened Encoding
  import C = Compaction
  import L = LsmStages

  type Fid = nat

  datatype Ptr = Ptr(fid: Fid, offset: nat, size: nat)

  // ---------------------------------------------------------------- stored values

  const FLAG_INLINE: Byte := 0
  const FLAG_POINTER: Byte := 1

  function EncodeInline(v: Bytes): Bytes {
    [FLAG_INLINE] + v
  }

  function EncodePointer(p: Ptr): Bytes {
    [FLAG_POINTER] + BigEndian(p.fid, 4) + BigEndian(p.offset, 8) + BigEndian(p.size, 4)
  }

  predicate IsPointer(b: Bytes) {
    |b| == 17 && b[0] == FLAG_POINTER
  }

  function DecodePointer(b: Bytes): Ptr
    requires IsPointer(b)
  {
    Ptr(FromBigEndian(b[1..5]), FromBigEndian(b[5..13]), FromBigEndian(b[13..17]))
  }

  ghost predicate Fits(p: Ptr) {
    p.fid < Pow256(4) && p.offset < Pow256(8) && p.size < Pow256(4)
  }

  lemma PointerRound(p: Ptr)
    requires Fits(p)
    ensures IsPointer(EncodePointer(p)) && DecodePointer(EncodePointer(p)) == p
  {
    var b := EncodePointer(p);
    assert b[1..5] == BigEndian(p.fid, 4) && b[5..13] == BigEndian(p.offset, 8) && b[13..17] == BigEndian(p.size, 4);
    BigEndianRound(p.fid, 4);
    BigEndianRound(p.offset, 8);
    BigEndianRound(p.size, 4);
  }

  /** What a stored value stands for; `read` fetches a value from the log. */
  function Resolve(raw: Bytes, read: Ptr -> Option<Bytes>): Option<Bytes> {
    if raw == [] then Some([])
    else if raw[0] == FLAG_INLINE then Some(raw[1..])
    else if !IsPointer(raw) then Some(raw)
    else
      var p := DecodePointer(raw);
      if p.size == 0 then Some([]) else read(p)
  }

  /** Whichever way a value is stored, a read gets it back, whatever its bytes are. */
  lemma StoredValueRound(v: Bytes, p: Ptr, read: Ptr -> Option<Bytes>)
    requires Fits(p) && p.size == |v| && (v != [] ==> read(p) == Some(v))
    ensures Resolve(EncodeInline(v), read) == Some(v) && Resolve(EncodePointer(p), read) == Some(v)
    ensures !IsPointer(EncodeInline(v))
  {
    PointerRound(p);
    assert EncodeInline(v)[1..] == v;
  }

  // ---------------------------------------------------------------- bytes owed to a segment

  /** The bytes of segment `f` that `p` points to. */
  function Owed(p: Payload, f: Fid): nat {
    if IsPointer(p.value) && DecodePointer(p.value).fid == f then DecodePointer(p.value).size else 0
  }

  ghost function Owing(m: map<Cell, Payload>, f: Fid): nat
    decreases |m|
  {
    if m == map[] then 0
    else
      var c :| c in m;
      Drop(m, c);
      Owed(m[c], f) + Owing(m - {c}, f)
  }

  lemma Drop(m: map<Cell, Payload>, c: Cell)
    requires c in m
    ensures |m - {c}| == |m| - 1
  {
    assert (m - {c}).Keys == m.Keys - {c};
    assert |m.Keys| == |m| && |(m - {c}).Keys| == |m - {c}|;
  }

  /** Any cell may be counted first. */
  lemma {:induction false} OwingFirst(m: map<Cell, Payload>, c: Cell, f: Fid)
    requires c in m
    ensures Owing(m, f) == Owed(m[c], f) + Owing(m - {c}, f)
    decreases |m|
  {
    var d :| d in m && Owing(m, f) == Owed(m[d], f) + Owing(m - {d}, f);
    if d != c {
      Drop(m, c);
      Drop(m, d);
      OwingFirst(m - {d}, c, f);
      OwingFirst(m - {c}, d, f);
      assert (m - {d}) - {c} == (m - {c}) - {d};
    }
  }

  lemma OwingAdd(m: map<Cell, Payload>, c: Cell, p: Payload, f: Fid)
    requires c !in m
    ensures Owing(m[c := p], f) == Owing(m, f) + Owed(p, f)
  {
    OwingFirst(m[c := p], c, f);
    assert m[c := p] - {c} == m;
  }

  lemma {:induction false} OwingSplit(m: map<Cell, Payload>, n: map<Cell, Payload>, f: Fid)
    requires m.Keys !! n.Keys
    ensures Owing(m + n, f) == Owing(m, f) + Owing(n, f)
    decreases |n|
  {
    if n == map[] {
      assert m + n == m;
    } else {
      var c :| c in n;
      Drop(n, c);
      OwingFirst(n, c, f);
      OwingFirst(m + n, c, f);
      UnionDrop(m, n, c);
      OwingSplit(m, n - {c}, f);
    }
  }

  lemma UnionDrop(m: map<Cell, Payload>, n: map<Cell, Payload>, c: Cell)
    requires c !in m
    ensures (m + n) - {c} == m + (n - {c})
  {}

  lemma {:induction false} OwingLess(m: map<Cell, Payload>, n: map<Cell, Payload>, f: Fid)
    requires n.Keys == m.Keys && forall c :: c in m ==> Owed(n[c], f) <= Owed(m[c], f)
    ensures Owing(n, f) <= Owing(m, f)
    decreases |m|
  {
    if m != map[] {
      var c :| c in m;
      Drop(m, c);
      OwingFirst(m, c, f);
      OwingFirst(n, c, f);
      OwingLess(m - {c}, n - {c}, f);
    } else {
      assert n == map[];
    }
  }

  lemma OwingPart(m: map<Cell, Payload>, c: Cell, f: Fid)
    requires c in m
    ensures Owed(m[c], f) <= Owing(m, f)
  {
    OwingFirst(m, c, f);
  }

  // ---------------------------------------------------------------- what compaction charges

  ghost function Dropped(inputs: map<Cell, Payload>, p: C.Params): map<Cell, Payload> {
    map c | c in inputs && c !in C.Output(inputs, p) :: inputs[c]
  }

  ghost function Kept(inputs: map<Cell, Payload>, p: C.Params): map<Cell, Payload> {
    map c | c in inputs && c in C.Output(inputs, p) :: inputs[c]
  }

  /** What compaction charges is no more than what it takes out of the tree. */
  lemma CompactionConserves(inputs: map<Cell, Payload>, p: C.Params, f: Fid)
    ensures Owing(C.Output(inputs, p), f) + Owing(Dropped(inputs, p), f) <= Owing(inputs, f)
  {
    assert inputs == Kept(inputs, p) + Dropped(inputs, p);
    OwingSplit(Kept(inputs, p), Dropped(inputs, p), f);
    KeptOwes(inputs, p, f);
  }

  /** A kept version may lose its value on the way, but it gains no bytes. */
  lemma KeptOwes(inputs: map<Cell, Payload>, p: C.Params, f: Fid)
    ensures Owing(C.Output(inputs, p), f) <= Owing(Kept(inputs, p), f)
  {
    OwingLess(Kept(inputs, p), C.Output(inputs, p), f);
  }

  function Charge(run: Run, f: Fid): nat {
    if run == [] then 0 else Charge(run[..|run| - 1], f) + Owed(run[|run| - 1].payload, f)
  }

  lemma SnocFresh(run: Run, e: Entry, all: Run)
    requires all == run + [e] && Distinct(all)
    ensures forall d :: d in run ==> d.cell != e.cell
  {
    forall d | d in run ensures d.cell != e.cell {
      var i :| 0 <= i < |run| && run[i] == d;
      assert all[i] == d && all[|run|] == e;
    }
  }

  lemma SnocMap(run: Run, e: Entry, all: Run)
    requires all == run + [e] && Single(run) && Single(all) && forall d :: d in run ==> d.cell != e.cell
    ensures e.cell !in AsMap(run) && AsMap(all) == AsMap(run)[e.cell := e.payload]
  {
    var m, n := AsMap(run), AsMap(all);
    forall c | c in n ensures c in m[e.cell := e.payload] && n[c] == m[e.cell := e.payload][c] {
      var d := Entry(c, n[c]);
      assert d in all;
      if d in run { assert c in m && m[c] == n[c]; }
    }
    forall c | c in m ensures c in n {
      assert Entry(c, m[c]) in all;
    }
    assert e in all;
  }

  lemma {:induction false} ChargeIsOwing(run: Run, f: Fid)
    requires Distinct(run) && Single(run)
    ensures Charge(run, f) == Owing(AsMap(run), f)
  {
    if run == [] {
      assert AsMap(run) == map[];
    } else {
      FrontDistinct(run);
      ChargeIsOwing(run[..|run| - 1], f);
      SnocOwing(run, f);
    }
  }

  lemma FrontDistinct(run: Run)
    requires run != [] && Distinct(run) && Single(run)
    ensures Distinct(run[..|run| - 1]) && Single(run[..|run| - 1])
  {}

  lemma SnocOwing(run: Run, f: Fid)
    requires run != [] && Distinct(run) && Single(run) && Single(run[..|run| - 1])
    ensures Owing(AsMap(run), f) == Owing(AsMap(run[..|run| - 1]), f) + Owed(run[|run| - 1].payload, f)
  {
    var front, last := run[..|run| - 1], run[|run| - 1];
    assert run == front + [last];
    SnocFresh(front, last, run);
    SnocMap(front, last, run);
    OwingAdd(AsMap(front), last.cell, last.payload, f);
  }

  lemma GoneEntry(merged: Run, p: C.Params, dropped: Run, e: Entry)
    requires Single(merged) && C.Gone(merged, p, |merged|, dropped)
    ensures e in dropped <==> e in merged && C.LeftOut(merged, p, e)
  {
    assert merged[..|merged|] == merged;
  }

  lemma DroppedEntry(merged: Run, p: C.Params, e: Entry)
    requires Single(merged)
    ensures e in merged && C.LeftOut(merged, p, e) <==>
              e.cell in Dropped(AsMap(merged), p) && Dropped(AsMap(merged), p)[e.cell] == e.payload
  {
    var inputs := AsMap(merged);
    if e.cell in Dropped(inputs, p) && Dropped(inputs, p)[e.cell] == e.payload {
      assert Entry(e.cell, inputs[e.cell]) in merged;
    }
  }

  lemma SameMaps(m: map<Cell, Payload>, n: map<Cell, Payload>)
    requires (forall c :: c in n ==> c in m && m[c] == n[c]) && forall c :: c in m ==> c in n
    ensures m == n
  {}

  lemma DroppedIsGone(merged: Run, p: C.Params, dropped: Run, c: Cell)
    requires Single(merged) && C.Gone(merged, p, |merged|, dropped) && Single(dropped) && c in Dropped(AsMap(merged), p)
    ensures c in AsMap(dropped) && AsMap(dropped)[c] == Dropped(AsMap(merged), p)[c]
  {
    var e := Entry(c, Dropped(AsMap(merged), p)[c]);
    DroppedEntry(merged, p, e);
    GoneEntry(merged, p, dropped, e);
  }

  lemma GoneOnlyDropped(merged: Run, p: C.Params, dropped: Run, c: Cell)
    requires Single(merged) && C.Gone(merged, p, |merged|, dropped) && Single(dropped) && c in AsMap(dropped)
    ensures c in Dropped(AsMap(merged), p)
  {
    var e := Entry(c, AsMap(dropped)[c]);
    GoneEntry(merged, p, dropped, e);
    DroppedEntry(merged, p, e);
  }

  lemma GoneIsDropped(merged: Run, p: C.Params, dropped: Run)
    requires Single(merged) && C.Gone(merged, p, |merged|, dropped) && Single(dropped)
    ensures AsMap(dropped) == Dropped(AsMap(merged), p)
  {
    var m, n := AsMap(dropped), Dropped(AsMap(merged), p);
    forall c | c in n ensures c in m && m[c] == n[c] { DroppedIsGone(merged, p, dropped, c); }
    forall c | c in m ensures c in n { GoneOnlyDropped(merged, p, dropped, c); }
    SameMaps(m, n);
  }

  /** What the merge loop charges is what the dropped versions owe. */
  lemma DrainCharges(merged: Run, p: C.Params, dropped: Run, f: Fid)
    requires Single(merged) && C.Gone(merged, p, |merged|, dropped)
    ensures Charge(dropped, f) == Owing(Dropped(AsMap(merged), p), f)
  {
    DistinctSingle(dropped);
    ChargeIsOwing(dropped, f);
    GoneIsDropped(merged, p, dropped);
  }

  function Get(stats: map<Fid, nat>, f: Fid): nat {
    if f in stats then stats[f] else 0
  }

  /** The counters after the bytes of one dropped version have been charged. */
  function Charged(stats: map<Fid, nat>, p: Payload): (r: map<Fid, nat>)
    ensures forall f :: Get(r, f) == Get(stats, f) + Owed(p, f)
  {
    if IsPointer(p.value) then
      var q := DecodePointer(p.value);
      stats[q.fid := Get(stats, q.fid) + q.size]
    else stats
  }

  /** The charges of one merge, version by version. */
  method AddDiscards(stats: map<Fid, nat>, dropped: Run) returns (r: map<Fid, nat>)
    ensures forall f :: Get(r, f) == Get(stats, f) + Charge(dropped, f)
  {
    r := stats;
    for i := 0 to |dropped|
      invariant forall f :: Get(r, f) == Get(stats, f) + Charge(dropped[..i], f)
    {
      assert dropped[..i + 1][..i] == dropped[..i];
      r := Charged(r, dropped[i].payload);
    }
    assert dropped[..|dropped|] == dropped;
  }

  // ---------------------------------------------------------------- the life of segments

  /** A merge under way; `charged` are the dropped versions whose bytes it has charged so far. */
  datatype Merging = Merging(inputs: map<Cell, Payload>, params: C.Params, charged: set<Cell>)

  /** `live` is everything the tree holds; `pending` is what has been appended to the log but not yet
      inserted. `written` and `discards` count value bytes by segment. */
  datatype Log = Log(
    live: map<Cell, Payload>, pending: map<Cell, Payload>, merging: Option<Merging>,
    written: map<Fid, nat>, discards: map<Fid, nat>, segments: set<Fid>, active: Fid)

  datatype Action =
    | Append(cell: Cell, value: Bytes, offset: nat, expiresAt: int)
    | Inline(cell: Cell, payload: Payload)
    | Insert(cell: Cell)
    | Fail(cell: Cell)
    | Rotate
    | StartMerge(inputs: map<Cell, Payload>, params: C.Params)
    | ChargeOne(cell: Cell)
    | InstallMerge
    | Unlink(fid: Fid)

  ghost predicate Enabled(s: Log, a: Action) {
    match a
    case Append(c, v, off, _) => c !in s.live && c !in s.pending && Fits(Ptr(s.active, off, |v|))
    case Inline(c, p) => c !in s.live && c !in s.pending && !IsPointer(p.value)
    case Insert(c) => c in s.pending && c !in s.live
    case Fail(c) => c in s.pending
    case Rotate => true
    case StartMerge(m, _) => s.merging.None? && Within(m, s.live)
    case ChargeOne(c) =>
      s.merging.Some? && var g := s.merging.value; c in Dropped(g.inputs, g.params) && c !in g.charged
    case InstallMerge => s.merging.Some? && var g := s.merging.value; g.charged == Dropped(g.inputs, g.params).Keys
    case Unlink(f) => f in s.segments && f != s.active && !StillReferenced(Get(s.discards, f), Get(s.written, f))
  }

  ghost predicate Within(m: map<Cell, Payload>, live: map<Cell, Payload>) {
    forall c :: c in m ==> c in live && live[c] == m[c]
  }

  /** The test before a segment is unlinked. */
  predicate StillReferenced(discards: nat, total: nat) {
    if total <= 0 then false else discards < total
  }

  ghost function Step(s: Log, a: Action): Log
    requires Enabled(s, a)
  {
    match a
    case Append(c, v, off, exp) =>
      s.(pending := s.pending[c := Payload(EncodePointer(Ptr(s.active, off, |v|)), false, exp)],
         written := s.written[s.active := Get(s.written, s.active) + |v|])
    case Inline(c, p) => s.(live := s.live[c := p])
    case Insert(c) => s.(live := s.live[c := s.pending[c]], pending := s.pending - {c})
    case Fail(c) => s.(pending := s.pending - {c})
    case Rotate => s.(segments := s.segments + {s.active + 1}, active := s.active + 1)
    case StartMerge(m, p) => s.(merging := Some(Merging(m, p, {})))
    case ChargeOne(c) =>
      var g := s.merging.value;
      s.(merging := Some(g.(charged := g.charged + {c})), discards := Charged(s.discards, g.inputs[c]))
    case InstallMerge =>
      var g := s.merging.value;
      s.(live := (s.live - g.inputs.Keys) + C.Output(g.inputs, g.params), merging := None)
    case Unlink(f) => s.(discards := s.discards - {f}, segments := s.segments - {f})
  }

  const Fresh := Log(map[], map[], None, map[], map[], {1}, 1)

  ghost predicate Run(states: seq<Log>, acts: seq<Action>) {
    && |states| == |acts| + 1 && states[0] == Fresh
    && forall i :: 0 <= i < |acts| ==> Enabled(states[i], acts[i]) && states[i + 1] == Step(states[i], acts[i])
  }

  // ---------------------------------------------------------------- conservation

  /** What the tree holds and no merge has charged. */
  ghost function Uncharged(s: Log): map<Cell, Payload> {
    if s.merging.None? then s.live else s.live - s.merging.value.charged
  }

  /** The bytes of a segment that something still points to. */
  ghost function Pointed(s: Log, f: Fid): nat {
    Owing(Uncharged(s), f) + Owing(s.pending, f)
  }

  ghost predicate Conserved(s: Log, f: Fid) {
    if f in s.segments then Pointed(s, f) + Get(s.discards, f) <= Get(s.written, f)
    else Pointed(s, f) == 0 && (f > s.active ==> Get(s.discards, f) == 0)
  }

  ghost predicate MergeOk(s: Log) {
    s.merging.Some? ==>
      var g := s.merging.value;
      Within(g.inputs, s.live) && g.charged <= Dropped(g.inputs, g.params).Keys
  }

  ghost predicate Inv(s: Log) {
    && s.active in s.segments && (forall f :: f in s.segments ==> f <= s.active)
    && MergeOk(s)
    && forall f: Fid :: Conserved(s, f)
  }

  lemma StepConserves(s: Log, a: Action, f: Fid)
    requires Inv(s) && Enabled(s, a)
    ensures Conserved(Step(s, a), f)
  {
    assert Conserved(s, f);
    match a {
      case Append(c, v, off, exp) =>
        var p := Payload(EncodePointer(Ptr(s.active, off, |v|)), false, exp);
        PointerRound(Ptr(s.active, off, |v|));
        OwingAdd(s.pending, c, p, f);
      case Inline(c, p) => GrowConserves(s, c, p, f);
      case Insert(c) =>
        GrowConserves(s, c, s.pending[c], f);
        OwingFirst(s.pending, c, f);
      case Fail(c) => OwingFirst(s.pending, c, f);
      case Rotate =>
      case StartMerge(m, p) => assert s.live - {} == s.live;
      case ChargeOne(c) => ChargeConserves(s, c, f);
      case InstallMerge => InstallConserves(s, f);
      case Unlink(g) =>
    }
  }

  lemma GrowConserves(s: Log, c: Cell, p: Payload, f: Fid)
    requires MergeOk(s) && c !in s.live
    ensures Owing(Uncharged(s.(live := s.live[c := p])), f) == Owing(Uncharged(s), f) + Owed(p, f)
  {
    OwingAdd(Uncharged(s), c, p, f);
    assert Uncharged(s.(live := s.live[c := p])) == Uncharged(s)[c := p];
  }

  lemma ChargeConserves(s: Log, c: Cell, f: Fid)
    requires MergeOk(s) && Enabled(s, ChargeOne(c))
    ensures Owing(Uncharged(Step(s, ChargeOne(c))), f) + Owed(s.merging.value.inputs[c], f) == Owing(Uncharged(s), f)
  {
    OwingFirst(Uncharged(s), c, f);
    assert Uncharged(Step(s, ChargeOne(c))) == Uncharged(s) - {c};
  }

  lemma InstallConserves(s: Log, f: Fid)
    requires MergeOk(s) && Enabled(s, InstallMerge)
    ensures Owing(Step(s, InstallMerge).live, f) <= Owing(Uncharged(s), f)
  {
    var g := s.merging.value;
    var rest := s.live - g.inputs.Keys;
    UnchargedSplit(s);
    OwingSplit(rest, Kept(g.inputs, g.params), f);
    OwingSplit(rest, C.Output(g.inputs, g.params), f);
    KeptOwes(g.inputs, g.params, f);
  }

  /** Once all charges are made, what is left of the inputs is what the merge keeps. */
  lemma UnchargedSplit(s: Log)
    requires MergeOk(s) && Enabled(s, InstallMerge)
    ensures var g := s.merging.value; Uncharged(s) == (s.live - g.inputs.Keys) + Kept(g.inputs, g.params)
  {}

  lemma StepInv(s: Log, a: Action)
    requires Inv(s) && Enabled(s, a)
    ensures Inv(Step(s, a))
  {
    var s' := Step(s, a);
    forall f: Fid ensures Conserved(s', f) { StepConserves(s, a, f); }
  }

  lemma {:induction false} InvRun(states: seq<Log>, acts: seq<Action>, n: nat)
    requires Run(states, acts) && n < |states|
    ensures Inv(states[n])
  {
    if n > 0 {
      InvRun(states, acts, n - 1);
      StepInv(states[n - 1], acts[n - 1]);
    }
  }

  /** In every run, pointed-to bytes and charged bytes together never exceed the bytes written. */
  lemma BytesConserved(states: seq<Log>, acts: seq<Action>, n: nat, f: Fid)
    requires Run(states, acts) && n < |states| && f in states[n].segments
    ensures Pointed(states[n], f) + Get(states[n].discards, f) <= Get(states[n].written, f)
  {
    InvRun(states, acts, n);
    assert Conserved(states[n], f);
  }

  /** No reader sees a version that a merge has charged: one that its watermark spares finds a newer
      version, or finds the charged one dead. */
  lemma ChargedUnseen(s: Log, k: Key, ts: nat, now: int)
    requires MergeOk(s) && s.merging.Some? && ts >= s.merging.value.params.minReadTs
        && now >= s.merging.value.params.now
    requires var v := Newest(s.live, k, ts); v.Some? && Cell(k, v.value) in s.merging.value.charged
    ensures Dead(Lookup(s.live, k, ts).value, now)
  {
    var g, c := s.merging.value, Cell(k, Newest(s.live, k, ts).value);
    assert c in Dropped(g.inputs, g.params);
    assert !C.Survives(g.inputs, g.params, c);
    assert !L.Superseded(g.inputs, g.params.minReadTs, c);
  }

  /** In every run, every pointer that a reader gets from the tree leads to a segment that is still
      there: while a merge is charging what it drops, for readers that its watermark spares. */
  lemma NoDangling(states: seq<Log>, acts: seq<Action>, n: nat, k: Key, ts: nat, now: int)
    requires Run(states, acts) && n < |states|
    requires states[n].merging.Some? ==>
               var p := states[n].merging.value.params; ts >= p.minReadTs && now >= p.now
    requires var r := Lookup(states[n].live, k, ts); r.Some? && !Dead(r.value, now) && IsPointer(r.value.value)
    ensures var p := DecodePointer(Lookup(states[n].live, k, ts).value.value); p.size > 0 ==>
        p.fid in states[n].segments
  {
    InvRun(states, acts, n);
    var s := states[n];
    var c := Cell(k, Newest(s.live, k, ts).value);
    var f := DecodePointer(s.live[c].value).fid;
    assert Conserved(s, f);
    if s.merging.Some? && c in s.merging.value.charged { ChargedUnseen(s, k, ts, now); }
    OwingPart(Uncharged(s), c, f);
  }
}
