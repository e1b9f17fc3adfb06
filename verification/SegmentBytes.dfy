/** Where the bytes of a value-log segment are, to the byte; and so when it can be unlinked. */
module SegmentBytes {
  import opened Store
  import opened Encoding
  import C = Compaction
  import L = LsmStages
  import opened ValueLog

  // ---------------------------------------------------------------- bytes that nobody charges

  /** The bytes of segment `f` that a step makes unreachable without charging them: those of an appended value whose
      insert fails, and those of an expired version that a merge keeps as a tombstone. */
  ghost function LostIn(s: Log, a: Action, f: Fid): int
    requires Enabled(s, a)
  {
    match a
    case Fail(c) => Owed(s.pending[c], f)
    case InstallMerge =>
      var g := s.merging.value;
      Owing(Kept(g.inputs, g.params), f) - Owing(C.Output(g.inputs, g.params), f)
    case _ => 0
  }

  ghost function Lost(states: seq<Log>, acts: seq<Action>, n: nat, f: Fid): int
    requires Run(states, acts) && n < |states|
  {
    if n == 0 then 0 else Lost(states, acts, n - 1, f) + LostIn(states[n - 1], acts[n - 1], f)
  }

  lemma LostNotNegative(s: Log, a: Action, f: Fid)
    requires Enabled(s, a)
    ensures LostIn(s, a, f) >= 0
  {
    if a.InstallMerge? { KeptOwes(s.merging.value.inputs, s.merging.value.params, f); }
  }

  /** A segment that is there: its bytes are pointed to, charged or lost. One that is not there yet has none. */
  ghost predicate Accounted(s: Log, f: Fid, lost: int) {
    if f in s.segments then Pointed(s, f) + Get(s.discards, f) + lost == Get(s.written, f)
    else f > s.active ==> Pointed(s, f) == 0 && Get(s.discards, f) == 0 && Get(s.written, f) == 0 && lost == 0
  }

  lemma StepAccounts(s: Log, a: Action, f: Fid, lost: int)
    requires Inv(s) && Enabled(s, a) && Accounted(s, f, lost)
    ensures Accounted(Step(s, a), f, lost + LostIn(s, a, f))
  {
    match a {
      case Append(c, v, off, exp) =>
        var p := Payload(EncodePointer(Ptr(s.active, off, |v|)), false, exp);
        PointerRound(Ptr(s.active, off, |v|));
        OwingAdd(s.pending, c, p, f);
      case Inline(c, p) => GrowConserves(s, c, p, f);
      case Insert(c) =>
        GrowConserves(s, c, s.pending[c], f);
        OwingFirst(s.pending, c, f);
      case Fail(c) => OwingFirst(s.pending, c, f);
      case Rotate =>
      case StartMerge(m, p) => assert s.live - {} == s.live;
      case ChargeOne(c) => ChargeConserves(s, c, f);
      case InstallMerge => InstallAccounts(s, f);
      case Unlink(g) =>
    }
  }

  lemma InstallAccounts(s: Log, f: Fid)
    requires MergeOk(s) && Enabled(s, InstallMerge)
    ensures Owing(Step(s, InstallMerge).live, f) + LostIn(s, InstallMerge, f) == Owing(Uncharged(s), f)
    ensures LostIn(s, InstallMerge, f) >= 0
  {
    var g := s.merging.value;
    var rest := s.live - g.inputs.Keys;
    UnchargedSplit(s);
    OwingSplit(rest, Kept(g.inputs, g.params), f);
    OwingSplit(rest, C.Output(g.inputs, g.params), f);
    KeptOwes(g.inputs, g.params, f);
  }

  /** In every run: of the bytes written to a segment, each is pointed to, charged or lost. */
  lemma {:induction false} BytesAccounted(states: seq<Log>, acts: seq<Action>, n: nat, f: Fid)
    requires Run(states, acts) && n < |states|
    ensures Accounted(states[n], f, Lost(states, acts, n, f)) && Lost(states, acts, n, f) >= 0
  {
    if n > 0 {
      BytesAccounted(states, acts, n - 1, f);
      InvRun(states, acts, n - 1);
      StepAccounts(states[n - 1], acts[n - 1], f, Lost(states, acts, n - 1, f));
      LostNotNegative(states[n - 1], acts[n - 1], f);
    } else {
      NothingYet(f);
    }
  }

  lemma NothingYet(f: Fid)
    ensures Accounted(Fresh, f, 0)
  {
    assert Uncharged(Fresh) == map[];
  }

  // ---------------------------------------------------------------- when a segment can go

  /** In every run, a segment other than the active one can be unlinked if and only if as many bytes have been
      charged to it as were written to it; that is, if and only if nothing points to it any more and none of its
      bytes were lost. */
  lemma UnlinkIff(states: seq<Log>, acts: seq<Action>, n: nat, f: Fid)
    requires Run(states, acts) && n < |states| && f in states[n].segments && f != states[n].active
    ensures Enabled(states[n], Unlink(f)) <==> Get(states[n].discards, f) >= Get(states[n].written, f)
    ensures Enabled(states[n], Unlink(f)) <==> Pointed(states[n], f) == 0 && Lost(states, acts, n, f) == 0
  {
    BytesAccounted(states, acts, n, f);
  }

  /** Lost bytes stay lost, and their segment is never unlinked. */
  lemma {:induction false} LeakStays(states: seq<Log>, acts: seq<Action>, m: nat, n: nat, f: Fid)
    requires Run(states, acts) && m <= n < |states| && Leaked(states, acts, m, f)
    ensures Leaked(states, acts, n, f)
  {
    if m < n {
      LeakStays(states, acts, m, n - 1, f);
      LeakNext(states, acts, n, f);
    }
  }

  /** Segment `f` is there and has lost bytes. */
  ghost predicate Leaked(states: seq<Log>, acts: seq<Action>, n: nat, f: Fid)
    requires Run(states, acts) && n < |states|
  {
    f in states[n].segments && Lost(states, acts, n, f) > 0
  }

  lemma LeakNext(states: seq<Log>, acts: seq<Action>, n: nat, f: Fid)
    requires Run(states, acts) && 0 < n < |states| && Leaked(states, acts, n - 1, f)
    ensures Leaked(states, acts, n, f)
  {
    BytesAccounted(states, acts, n - 1, f);
    LeakStep(states[n - 1], acts[n - 1], states[n], f, Lost(states, acts, n - 1, f));
    LostNotNegative(states[n - 1], acts[n - 1], f);
  }

  lemma LeakStep(s: Log, a: Action, s': Log, f: Fid, lost: int)
    requires Enabled(s, a) && s' == Step(s, a) && Accounted(s, f, lost) && f in s.segments && lost > 0
    ensures f in s'.segments
  {}

  // ---------------------------------------------------------------- two runs

  ghost predicate RunTo(states: seq<Log>, acts: seq<Action>, s: Log) {
    Run(states, acts) && states[|acts|] == s
  }

  ghost predicate Reached(s: Log) {
    exists states, acts :: RunTo(states, acts, s)
  }

  lemma Go(s: Log, a: Action, s': Log)
    requires Reached(s) && Enabled(s, a) && s' == Step(s, a)
    ensures Reached(s')
  {
    var states, acts :| RunTo(states, acts, s);
    var states', acts' := states + [s'], acts + [a];
    forall i | 0 <= i < |acts'|
      ensures Enabled(states'[i], acts'[i]) && states'[i + 1] == Step(states'[i], acts'[i]) {
      if i < |acts| { assert states'[i + 1] == states[i + 1]; }
    }
    assert RunTo(states', acts', s');
  }

  const KEY: Key := [107]
  const TEN: Bytes := [1, 2, 3, 4, 5, 6, 7, 8, 9, 10]
  const OLD: Cell := Cell(KEY, 1)
  const NEW: Cell := Cell(KEY, 2)
  const SMALL: Payload := Payload([0], false, 0)

  function Pointer(expiresAt: int): Payload {
    Payload(EncodePointer(Ptr(1, 0, 10)), false, expiresAt)
  }

  /** Ten bytes have been appended to segment 1 and inserted, and segment 2 is the active one. */
  ghost function Written(expiresAt: int): Log {
    Log(map[OLD := Pointer(expiresAt)], map[], None, map[1 := 10], map[], {1, 2}, 2)
  }

  lemma WriteTen(expiresAt: int)
    ensures Reached(Written(expiresAt))
  {
    assert RunTo([Fresh], [], Fresh);
    SmallFits();
    var s1 := Step(Fresh, Append(OLD, TEN, 0, expiresAt));
    Go(Fresh, Append(OLD, TEN, 0, expiresAt), s1);
    var s2 := Step(s1, Insert(OLD));
    Go(s1, Insert(OLD), s2);
    assert s2.pending == map[];
    Go(s2, Rotate, Step(s2, Rotate));
    assert Step(s2, Rotate) == Written(expiresAt);
  }

  lemma SmallFits()
    ensures Fits(Ptr(1, 0, 10))
  {
    Widths();
  }

  lemma OwesTen(p: Payload)
    requires p.value == EncodePointer(Ptr(1, 0, 10))
    ensures IsPointer(p.value) && DecodePointer(p.value) == Ptr(1, 0, 10)
  {
    SmallFits();
    PointerRound(Ptr(1, 0, 10));
  }

  /** The value has been overwritten with a small one, and a merge of the two has charged it. */
  ghost function ChargedTen(): Log {
    var inputs := map[OLD := Pointer(0), NEW := SMALL];
    Log(inputs, map[], Some(Merging(inputs, C.Params(2, 0, false), {OLD})), map[1 := 10], map[1 := 10], {1, 2}, 2)
  }

  lemma ChargeTen()
    ensures Reached(ChargedTen())
  {
    var inputs, p := map[OLD := Pointer(0), NEW := SMALL], C.Params(2, 0, false);
    WriteTen(0);
    var s1 := Step(Written(0), Inline(NEW, SMALL));
    Go(Written(0), Inline(NEW, SMALL), s1);
    assert s1.live == inputs;
    var s2 := Step(s1, StartMerge(inputs, p));
    Go(s1, StartMerge(inputs, p), s2);
    Overwritten(inputs, p);
    OwesTen(Pointer(0));
    var s3 := Step(s2, ChargeOne(OLD));
    Go(s2, ChargeOne(OLD), s3);
    assert {} + {OLD} == {OLD};
    assert s3 == ChargedTen();
  }

  /** Of an old version and a new one below the watermark a merge keeps the new one. */
  lemma Overwritten(inputs: map<Cell, Payload>, p: C.Params)
    requires p == C.Params(2, 0, false) && inputs.Keys == {OLD, NEW} && inputs[NEW] == SMALL
    ensures C.Output(inputs, p) == map[NEW := SMALL] && Dropped(inputs, p) == map[OLD := inputs[OLD]]
  {
    assert L.Superseded(inputs, 2, OLD) by { assert Cell(OLD.key, 2) == NEW; }
    assert !L.Superseded(inputs, 2, NEW);
    assert C.Survives(inputs, p, NEW) && !C.Survives(inputs, p, OLD);
  }

  /** A segment's only value is overwritten, merged away and charged, and the segment is unlinked. */
  lemma SegmentGoes() returns (s: Log)
    ensures Reached(s) && 1 in s.segments && Enabled(s, Unlink(1)) && s.live == map[NEW := SMALL]
    ensures Reached(Step(s, Unlink(1))) && Step(s, Unlink(1)).segments == {2}
  {
    ChargeTen();
    var t := ChargedTen();
    Overwritten(t.live, C.Params(2, 0, false));
    s := Step(t, InstallMerge);
    Go(t, InstallMerge, s);
    assert s.live == map[NEW := SMALL];
    Go(s, Unlink(1), Step(s, Unlink(1)));
  }

  /** A segment's only value expires, and a merge that may not drop it makes a tombstone of it: nothing points to the
      segment any more, no byte is charged to it, and it cannot be unlinked. */
  lemma SegmentLeaks() returns (s: Log)
    ensures Reached(s) && 1 in s.segments && s.active == 2 && s.live == map[OLD := TOMB]
    ensures Pointed(s, 1) == 0 && Get(s.discards, 1) == 0 && !Enabled(s, Unlink(1))
  {
    s := Tombstoned();
    ExpireTen();
    assert Uncharged(s) == map[OLD := TOMB];
    OneOwes(OLD, TOMB, 1);
  }

  const TOMB: Payload := Payload([], true, 5)

  ghost function Tombstoned(): Log {
    Log(map[OLD := TOMB], map[], None, map[1 := 10], map[], {1, 2}, 2)
  }

  lemma ExpireTen()
    ensures Reached(Tombstoned())
  {
    WriteTen(5);
    var t, p := Written(5), C.Params(0, 9, false);
    Expires(t.live, p);
    var s1 := Step(t, StartMerge(t.live, p));
    Go(t, StartMerge(t.live, p), s1);
    var s := Step(s1, InstallMerge);
    Go(s1, InstallMerge, s);
    assert s.live == map[OLD := TOMB];
  }

  lemma Expires(inputs: map<Cell, Payload>, p: C.Params)
    requires p == C.Params(0, 9, false) && inputs.Keys == {OLD} && !inputs[OLD].deleted && inputs[OLD].expiresAt == 5
    ensures C.Output(inputs, p) == map[OLD := Payload([], true, 5)] && Dropped(inputs, p) == map[]
  {
    assert !L.Superseded(inputs, 0, OLD);
    assert C.Survives(inputs, p, OLD);
  }

  lemma OneOwes(c: Cell, p: Payload, f: Fid)
    ensures Owing(map[c := p], f) == Owed(p, f)
  {
    OwingAdd(map[], c, p, f);
    assert map[][c := p] == map[c := p];
  }
}
