/** How a value-log segment is unlinked while readers use it: the reference count, the removal flags
    and the segment map, one atomic operation per step. */
module SegmentRefs {

  type Id = nat

  /** Holding: has a reference. Dropped: took the count to zero and has not looked at the removal
      mark yet. Sure: about to claim the removal. Won: claimed it, about to unlink. */
  datatype Phase = Holding | Dropped | Sure | Won | Done

  datatype Deleter = Idle | Unmapped | Marked | Removing | Unlinking | Finished

  datatype Segment = Segment(
    mapped: bool, refs: int, pending: bool, removed: bool, unlinks: nat, readers: map<Id, Phase>, deleter: Deleter)

  datatype Action =
    | Join(id: Id) | Release(id: Id) | Check(id: Id) | Claim(id: Id) | Unlink(id: Id)
    | Unmap | Mark | Look | DeleterClaim | DeleterUnlink

  ghost predicate In(s: Segment, id: Id, p: Phase) {
    id in s.readers && s.readers[id] == p
  }

  ghost predicate Enabled(s: Segment, a: Action) {
    match a
    case Join(id) => id !in s.readers
    case Release(id) => In(s, id, Holding)
    case Check(id) => In(s, id, Dropped)
    case Claim(id) => In(s, id, Sure)
    case Unlink(id) => In(s, id, Won)
    case Unmap => s.deleter.Idle?
    case Mark => s.deleter.Unmapped?
    case Look => s.deleter.Marked?
    case DeleterClaim => s.deleter.Removing?
    case DeleterUnlink => s.deleter.Unlinking?
  }

  ghost function Move(s: Segment, id: Id, p: Phase): Segment {
    Segment(s.mapped, s.refs, s.pending, s.removed, s.unlinks, s.readers[id := p], s.deleter)
  }

  ghost function Step(s: Segment, a: Action): Segment
    requires Enabled(s, a)
  {
    match a
    case Join(id) => if s.mapped then Move(s, id, Holding).(refs := s.refs + 1) else Move(s, id, Done)
    case Release(id) => Move(s, id, if s.refs - 1 == 0 then Dropped else Done).(refs := s.refs - 1)
    case Check(id) => Move(s, id, if s.pending then Sure else Done)
    case Claim(id) => if s.removed then Move(s, id, Done) else Move(s, id, Won).(removed := true)
    case Unlink(id) => Move(s, id, Done).(unlinks := s.unlinks + 1)
    case Unmap => s.(mapped := false, deleter := Unmapped)
    case Mark => s.(pending := true, deleter := Marked)
    case Look => s.(deleter := if s.refs > 0 then Finished else Removing)
    case DeleterClaim => if s.removed then s.(deleter := Finished) else s.(removed := true, deleter := Unlinking)
    case DeleterUnlink => s.(unlinks := s.unlinks + 1, deleter := Finished)
  }

  const Open := Segment(true, 0, false, false, 0, map[], Idle)

  ghost predicate RunFrom(s: Segment, states: seq<Segment>, acts: seq<Action>) {
    && |states| == |acts| + 1 && states[0] == s
    && forall i :: 0 <= i < |acts| ==> Enabled(states[i], acts[i]) && states[i + 1] == Step(states[i], acts[i])
  }

  // ---------------------------------------------------------------- counting

  ghost function Those(s: Segment, p: Phase): set<Id> {
    set id | id in s.readers && s.readers[id] == p
  }

  /** How many readers are in a phase. */
  ghost function N(s: Segment, p: Phase): nat {
    |Those(s, p)|
  }

  /** The phase an action takes its reader to. */
  ghost function Target(s: Segment, a: Action): Phase {
    match a
    case Join(_) => if s.mapped then Holding else Done
    case Release(_) => if s.refs - 1 == 0 then Dropped else Done
    case Check(_) => if s.pending then Sure else Done
    case Claim(_) => if s.removed then Done else Won
    case _ => Done
  }

  ghost predicate OfReader(a: Action) {
    a.Join? || a.Release? || a.Check? || a.Claim? || a.Unlink?
  }

  ghost function Gain(s: Segment, a: Action, p: Phase): int {
    if !OfReader(a) then 0
    else (if Target(s, a) == p then 1 else 0) - (if In(s, a.id, p) then 1 else 0)
  }

  lemma StepReaders(s: Segment, a: Action)
    requires Enabled(s, a)
    ensures Step(s, a).readers == if OfReader(a) then s.readers[a.id := Target(s, a)] else s.readers
  {}

  lemma StepCounts(s: Segment, a: Action, p: Phase)
    requires Enabled(s, a)
    ensures N(Step(s, a), p) == N(s, p) + Gain(s, a, p)
  {
    StepReaders(s, a);
    Counts(s, Step(s, a), a, p);
  }

  lemma Counts(s: Segment, s': Segment, a: Action, p: Phase)
    requires s'.readers == if OfReader(a) then s.readers[a.id := Target(s, a)] else s.readers
    ensures N(s', p) == N(s, p) + Gain(s, a, p)
  {
    if !OfReader(a) {
      assert Those(s', p) == Those(s, p);
    } else if Target(s, a) == p {
      CountIn(s, s', a.id, p);
    } else {
      CountOut(s, s', a.id, Target(s, a), p);
    }
  }

  lemma CountIn(s: Segment, s': Segment, id: Id, p: Phase)
    requires s'.readers == s.readers[id := p]
    ensures N(s', p) == N(s, p) + if In(s, id, p) then 0 else 1
  {
    assert Those(s', p) == Those(s, p) + {id};
  }

  lemma CountOut(s: Segment, s': Segment, id: Id, to: Phase, p: Phase)
    requires s'.readers == s.readers[id := to] && to != p
    ensures N(s', p) == N(s, p) - if In(s, id, p) then 1 else 0
  {
    assert Those(s', p) == Those(s, p) - {id};
  }

  // ---------------------------------------------------------------- the invariant

  datatype Clause = CFlags | CRefs | COnce | COwner

  ghost predicate Holds(c: Clause, s: Segment) {
    match c
    case CFlags =>
      && (s.mapped <==> s.deleter.Idle?) && (s.pending <==> !s.deleter.Idle? && !s.deleter.Unmapped?)
      && (!s.pending ==> N(s, Sure) == 0 && N(s, Won) == 0 && !s.removed)
    case CRefs => s.refs == N(s, Holding)
    case COnce => s.unlinks + N(s, Won) + (if s.deleter.Unlinking? then 1 else 0) == if s.removed then 1 else 0
    case COwner =>
      s.pending && !s.removed ==>
          N(s, Holding) + N(s, Dropped) + N(s, Sure) > 0 || s.deleter.Marked? || s.deleter.Removing?
  }

  ghost predicate Inv(s: Segment) {
    forall c: Clause :: Holds(c, s)
  }

  lemma InvOpen()
    ensures Inv(Open)
  {
    forall p: Phase ensures N(Open, p) == 0 { assert Those(Open, p) == {}; }
    forall c: Clause ensures Holds(c, Open) { match c { case _ => } }
  }

  lemma Positive(s: Segment, id: Id, p: Phase)
    requires In(s, id, p)
    ensures N(s, p) > 0
  {
    assert id in Those(s, p);
  }

  lemma InvStep(s: Segment, a: Action)
    requires Inv(s) && Enabled(s, a)
    ensures Inv(Step(s, a))
  {
    var s' := Step(s, a);
    assert Holds(CFlags, s) && Holds(CRefs, s) && Holds(COnce, s) && Holds(COwner, s);
    StepCounts(s, a, Holding);
    StepCounts(s, a, Dropped);
    StepCounts(s, a, Sure);
    StepCounts(s, a, Won);
    if OfReader(a) && !a.Join? { Positive(s, a.id, s.readers[a.id]); }
    forall c: Clause ensures Holds(c, s') { match c { case _ => } }
  }

  lemma {:induction false} InvRun(states: seq<Segment>, acts: seq<Action>, n: nat)
    requires RunFrom(Open, states, acts) && n < |states|
    ensures Inv(states[n])
  {
    if n == 0 { InvOpen(); }
    else {
      InvRun(states, acts, n - 1);
      InvStep(states[n - 1], acts[n - 1]);
    }
  }

  // ---------------------------------------------------------------- what the protocol guarantees

  ghost predicate Quiet(s: Segment) {
    s.deleter.Finished? && forall id :: id in s.readers ==> s.readers[id].Done?
  }

  /** In every run the file is unlinked at most once, and exactly once when the deletion has run and
      every reader has finished. */
  lemma UnlinkedOnce(states: seq<Segment>, acts: seq<Action>, n: nat)
    requires RunFrom(Open, states, acts) && n < |states|
    ensures states[n].unlinks <= 1 && (Quiet(states[n]) ==> states[n].unlinks == 1)
  {
    InvRun(states, acts, n);
    var s := states[n];
    assert Holds(COnce, s) && Holds(COwner, s) && Holds(CFlags, s);
    if Quiet(s) {
      assert Those(s, Holding) == {} && Those(s, Dropped) == {} && Those(s, Sure) == {} && Those(s, Won) == {};
    }
  }

  /** Nobody gets a reference once the segment has left the map. */
  lemma NoLateReaders(s: Segment, a: Action, id: Id)
    requires Inv(s) && Enabled(s, a) && !s.deleter.Idle? && In(Step(s, a), id, Holding)
    ensures In(s, id, Holding)
  {
    assert Holds(CFlags, s);
  }

  /** Never unlinked under a reader. */
  ghost predicate Safe(s: Segment) {
    s.unlinks > 0 ==> Those(s, Holding) == {}
  }

  ghost predicate AlwaysSafe(s: Segment) {
    forall states, acts, n :: RunFrom(s, states, acts) && 0 <= n < |states| ==> Safe(states[n])
  }

  // ---------------------------------------------------------------- exactly when it is safe

  /** No reader is between giving up the last reference and looking at the removal mark, or no other
      reader holds one. */
  ghost predicate Clean(s: Segment) {
    Those(s, Dropped) == {} || Those(s, Holding) == {}
  }

  /** After the segment has left the map: whoever may still unlink it has seen the last reader go. */
  ghost predicate Guarded(s: Segment) {
    && Inv(s) && !s.deleter.Idle?
    && (N(s, Dropped) + N(s, Sure) + N(s, Won) + s.unlinks > 0 || s.deleter.Removing? || s.deleter.Unlinking? ==>
         s.refs == 0)
  }

  lemma GuardedStep(s: Segment, a: Action)
    requires Guarded(s) && Enabled(s, a)
    ensures Guarded(Step(s, a))
  {
    InvStep(s, a);
    assert Holds(CFlags, s) && Holds(CRefs, s);
    StepCounts(s, a, Holding);
    StepCounts(s, a, Dropped);
    StepCounts(s, a, Sure);
    StepCounts(s, a, Won);
    if OfReader(a) && !a.Join? { Positive(s, a.id, s.readers[a.id]); }
  }

  lemma {:induction false} GuardedRun(s: Segment, states: seq<Segment>, acts: seq<Action>, n: nat)
    requires Guarded(s) && RunFrom(s, states, acts) && n < |states|
    ensures Guarded(states[n])
  {
    if n > 0 {
      GuardedRun(s, states, acts, n - 1);
      GuardedStep(states[n - 1], acts[n - 1]);
    }
  }

  lemma GuardedSafe(s: Segment)
    requires Guarded(s)
    ensures Safe(s)
  {
    assert Holds(CRefs, s);
  }

  lemma CleanGuarded(s: Segment)
    requires Inv(s) && s.deleter.Unmapped? && Clean(s)
    ensures Guarded(s)
  {
    assert Holds(CFlags, s) && Holds(CRefs, s) && Holds(COnce, s);
  }

  /** A reader that gave up the last reference before another one joined unlinks the file under it. */
  lemma Harm(s: Segment, a: Id, b: Id) returns (states: seq<Segment>, acts: seq<Action>)
    requires Inv(s) && s.deleter.Unmapped? && In(s, a, Dropped) && In(s, b, Holding)
    ensures |states| == 5 && RunFrom(s, states, acts) && !Safe(states[4])
  {
    assert Holds(CFlags, s) && Holds(COnce, s);
    var s1 := Step(s, Mark);
    var s2 := Step(s1, Check(a));
    var s3 := Step(s2, Claim(a));
    var s4 := Step(s3, Unlink(a));
    states, acts := [s, s1, s2, s3, s4], [Mark, Check(a), Claim(a), Unlink(a)];
    assert b in Those(s4, Holding);
  }

  /** From the moment a segment has left the map, no interleaving unlinks it under a reader if and
      only if no reader is between giving up the last reference and looking at the removal mark
      while another reader has a reference. */
  lemma SafeExactlyIfClean(s: Segment)
    requires Inv(s) && s.deleter.Unmapped?
    ensures AlwaysSafe(s) <==> Clean(s)
  {
    if Clean(s) {
      CleanGuarded(s);
      forall states, acts, n | RunFrom(s, states, acts) && 0 <= n < |states| ensures Safe(states[n]) {
        GuardedRun(s, states, acts, n);
        GuardedSafe(states[n]);
      }
    } else {
      var a :| a in Those(s, Dropped);
      var b :| b in Those(s, Holding);
      var states, acts := Harm(s, a, b);
      assert !Safe(states[4]);
    }
  }

  /** The unsafe state is reached in five steps: one reader comes and goes, another comes, and the
      segment is taken out of the map before the first has looked at the mark. */
  lemma UnsafeReached() returns (states: seq<Segment>, acts: seq<Action>)
    ensures |states| == 5 && RunFrom(Open, states, acts) && !AlwaysSafe(states[4])
  {
    var s1 := Step(Open, Join(0));
    var s2 := Step(s1, Release(0));
    var s3 := Step(s2, Join(1));
    var s4 := Step(s3, Unmap);
    states, acts := [Open, s1, s2, s3, s4], [Join(0), Release(0), Join(1), Unmap];
    InvRun(states, acts, 4);
    assert 0 in Those(s4, Dropped) && 1 in Those(s4, Holding);
    SafeExactlyIfClean(s4);
  }
}
