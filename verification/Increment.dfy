/** INCRBY: read, add and write under the lock of the key's stripe, with the commit timestamp taken
    inside it. */
module Increment {
  import opened Store
  import opened Encoding

  // ---------------------------------------------------------------- decimal text

  function Digits(n: nat): (b: Bytes)
    ensures b != [] && b[0] >= 48
  {
    if n < 10 then [48 + n] else Digits(n / 10) + [48 + n % 10]
  }

  function Format(n: int): Bytes {
    if n < 0 then [45] + Digits(-n) else Digits(n)
  }

  function DigitsValue(b: Bytes): Option<nat> {
    if b == [] then Some(0)
    else
      var front, last := DigitsValue(b[..|b| - 1]), b[|b| - 1];
      if front.Some? && 48 <= last <= 57 then Some(10 * front.value + last - 48) else None
  }

  /** A decimal number with an optional sign that fits 64 bits. */
  function Parse(b: Bytes): Option<int> {
    var signed := b != [] && (b[0] == 43 || b[0] == 45);
    var rest := if signed then b[1..] else b;
    var m := DigitsValue(rest);
    if rest == [] || m.None? then None
    else
      var n := if signed && b[0] == 45 then 0 - m.value else m.value;
      if -TWO63 <= n < TWO63 then Some(n) else None
  }

  lemma {:induction false} DigitsRound(n: nat)
    ensures DigitsValue(Digits(n)) == Some(n)
  {
    if n < 10 {
      assert Digits(n)[..0] == [];
    } else {
      DigitsRound(n / 10);
      assert Digits(n)[..|Digits(n)| - 1] == Digits(n / 10);
    }
  }

  lemma FormatRound(n: int)
    requires Int64(n)
    ensures Parse(Format(n)) == Some(n) && Format(n) != []
  {
    if n < 0 {
      DigitsRound(-n);
      assert Format(n)[1..] == Digits(-n);
    } else {
      DigitsRound(n);
      DigitStart(n);
    }
  }

  lemma {:induction false} DigitStart(n: nat)
    ensures 48 <= Digits(n)[0] <= 57
  {
    if n >= 10 { DigitStart(n / 10); }
  }

  function Pow10(n: nat): nat {
    if n == 0 then 1 else 10 * Pow10(n - 1)
  }

  /** What digits stand for, the first one counting most. */
  function Decimal(b: Bytes): int {
    if b == [] then 0 else (b[0] - 48) * Pow10(|b| - 1) + Decimal(b[1..])
  }

  /** One or more digits that stand for `n`. */
  ghost predicate IsDecimal(b: Bytes, n: int) {
    b != [] && (forall i :: 0 <= i < |b| ==> 48 <= b[i] <= 57) && n == Decimal(b)
  }

  lemma {:induction false} DecimalSnoc(b: Bytes)
    requires b != []
    ensures Decimal(b) == 10 * Decimal(b[..|b| - 1]) + b[|b| - 1] - 48
  {
    var front := b[..|b| - 1];
    if |b| == 1 {
      assert b[1..] == [] && front == [];
    } else {
      DecimalSnoc(b[1..]);
      assert b[1..][..|b| - 2] == front[1..] && front[0] == b[0];
      var first: int := b[0];
      PowShift(first - 48, |b| - 1);
    }
  }

  lemma PowShift(x: int, n: nat)
    requires n > 0
    ensures x * Pow10(n) == 10 * (x * Pow10(n - 1))
  {}

  lemma {:induction false} DigitsValueIs(b: Bytes)
    ensures DigitsValue(b).Some? <==> forall i :: 0 <= i < |b| ==> 48 <= b[i] <= 57
    ensures DigitsValue(b).Some? ==> DigitsValue(b).value == Decimal(b)
  {
    if b != [] {
      DigitsValueIs(b[..|b| - 1]);
      DecimalSnoc(b);
    }
  }

  /** A number is written with its digits only, a minus sign in front if it is negative, and no zeros in front. */
  lemma FormatIs(n: int)
    ensures n >= 0 ==> IsDecimal(Format(n), n) && (|Format(n)| > 1 ==> Format(n)[0] != 48)
    ensures n < 0 ==> Format(n)[0] == 45 && IsDecimal(Format(n)[1..], -n) && Format(n)[1] != 48
  {
    if n < 0 {
      DigitsAre(-n);
      assert Format(n)[1..] == Digits(-n);
    } else {
      DigitsAre(n);
    }
  }

  lemma {:induction false} DigitsAre(n: nat)
    ensures IsDecimal(Digits(n), n) && (n > 0 ==> Digits(n)[0] != 48) && (n < 10 ==> |Digits(n)| == 1)
  {
    DigitsRound(n);
    DigitsValueIs(Digits(n));
    if n >= 10 { DigitsAre(n / 10); }
  }

  /** A text is parsed exactly if it is digits with or without a sign in front whose number fits 64 bits. */
  lemma ParseIff(b: Bytes, n: int)
    ensures Parse(b) == Some(n) <==>
              && -9223372036854775808 <= n <= 9223372036854775807
              && (|| IsDecimal(b, n)
                  || (b != [] && b[0] == 43 && IsDecimal(b[1..], n))
                  || (b != [] && b[0] == 45 && IsDecimal(b[1..], -n)))
  {
    DigitsValueIs(b);
    if b != [] { DigitsValueIs(b[1..]); }
  }

  /** "+5" is five; "abc", "-" and the empty text are nothing. */
  lemma ParseExamples()
    ensures Parse([43, 53]) == Some(5)
    ensures Parse([97, 98, 99]) == None && Parse([45]) == None && Parse([]) == None
  {
    var five: Bytes := [53];
    assert [43, 53][1..] == five && five[..0] == [];
    var abc: Bytes := [97, 98, 99];
    DigitsValueIs(abc);
    assert abc[0] == 97;
    var minus: Bytes := [45];
    assert minus[1..] == [];
  }

  // ---------------------------------------------------------------- the protocol

  /** The clock as one increment reads it: for the time left to live, for the new expiry, for the value. */
  datatype Readings = Readings(ttl: int, renew: int, value: int)
  datatype Phase = Held | Stamped(ts: nat)
  datatype Job = Job(key: Key, delta: int, phase: Phase)
  datatype System = System(next: nat, cells: map<Cell, Payload>, jobs: map<nat, Job>)

  datatype Event =
    | Lock(stripe: nat, key: Key, delta: int)
    | Stamp(stripe: nat)
    | Finish(stripe: nat, key: Key, delta: int, at: Readings, result: Option<int>)
    | TakeTs
    | OtherWrite(cell: Cell, payload: Payload)

  /** The number an observed value stands for: no value and an empty one count as zero. */
  function Number(value: Option<Bytes>): Option<int> {
    if value.None? || value.value == [] then Some(0) else Parse(value.value)
  }

  function Plus(n: Option<int>, delta: int): Option<int> {
    if n.None? then None else Some(Wrap(n.value + delta))
  }

  /** The seconds a key has left, nothing for one that never expires or is gone. */
  function TimeLeft(r: Option<Payload>, now: int): int {
    if r.None? || Dead(r.value, now) || r.value.expiresAt <= 0 then 0 else r.value.expiresAt - now
  }

  /** The expiry that an increment gives to the value it writes. */
  function Renewed(r: Option<Payload>, at: Readings): int {
    var left := TimeLeft(r, at.ttl);
    if left > 0 then at.renew + left else 0
  }

  /** One step of some goroutine; `stripeOf` picks the lock of a key. */
  ghost predicate Step(stripeOf: Key -> nat, a: System, e: Event, b: System) {
    match e
    case Lock(st, k, d) =>
      st == stripeOf(k) && st !in a.jobs && Int64(d) && b == a.(jobs := a.jobs[st := Job(k, d, Held)])
    case Stamp(st) =>
      && st in a.jobs && a.jobs[st].phase.Held?
      && b == a.(next := a.next + 1, jobs := a.jobs[st := a.jobs[st].(phase := Stamped(a.next + 1))])
    case Finish(st, k, d, at, r) =>
      && st in a.jobs && a.jobs[st].phase.Stamped? && a.jobs[st].key == k && a.jobs[st].delta == d
      && var ts := a.jobs[st].phase.ts;
         var stored := Lookup(a.cells, k, ts);
         && r == Plus(Number(ObserveCell(stored, at.value)), d)
         && b.next == a.next && b.jobs == a.jobs - {st}
         && b.cells == if r.None? then a.cells
                       else a.cells[Cell(k, ts) := Payload(Format(r.value), false, Renewed(stored, at))]
    case TakeTs => b == a.(next := a.next + 1)
    case OtherWrite(c, p) => b == a.(cells := a.cells[c := p])
  }

  ghost predicate IsRun(stripeOf: Key -> nat, states: seq<System>, events: seq<Event>) {
    |states| == |events| + 1 && forall i :: 0 <= i < |events| ==> Step(stripeOf, states[i], events[i], states[i + 1])
  }

  // ---------------------------------------------------------------- one counter

  /** What a key amounts to: a number, unless its value is none, that is gone at `expiry` if positive. */
  datatype Counter = Counter(number: Option<int>, expiry: int)
  datatype Inc = Inc(delta: int, at: Readings)

  ghost predicate Over(c: Counter, now: int) {
    c.expiry > 0 && now >= c.expiry
  }

  /** One increment with nobody else about: it starts again at zero once the counter is over, changes
      nothing when there is no number, and leaves a counter that has not expired the time it had left. */
  ghost function Bumped(c: Counter, i: Inc): Counter {
    var n := Plus(if Over(c, i.at.value) then Some(0) else c.number, i.delta);
    if n.None? then c
    else Counter(n, if c.expiry > 0 && !Over(c, i.at.ttl) then i.at.renew + c.expiry - i.at.ttl else 0)
  }

  ghost function After(c: Counter, incs: seq<Inc>): Counter {
    if incs == [] then c else Bumped(After(c, incs[..|incs| - 1]), incs[|incs| - 1])
  }

  ghost function CounterOf(r: Option<Payload>): Counter {
    if r.None? || r.value.deleted then Counter(Some(0), 0)
    else Counter(Number(Some(r.value.value)), r.value.expiresAt)
  }

  /** The counter that the newest version of a key holds. */
  ghost function Now(s: System, k: Key): Counter {
    CounterOf(Lookup(s.cells, k, s.next))
  }

  /** The increments of a key, in the order in which they finish. */
  ghost function Increments(events: seq<Event>, k: Key): seq<Inc> {
    if events == [] then []
    else
      var before, e := Increments(events[..|events| - 1], k), events[|events| - 1];
      if e.Finish? && e.key == k then before + [Inc(e.delta, e.at)] else before
  }

  // ---------------------------------------------------------------- what every step keeps

  ghost predicate Below(s: System, k: Key, bound: nat) {
    forall v: nat :: Cell(k, v) in s.cells ==> v < bound
  }

  /** Versions of `k` are below the counter, and below the timestamp of an increment of `k` under way;
      a job holds the lock of its own key. */
  ghost predicate Orderly(stripeOf: Key -> nat, s: System, k: Key) {
    && Below(s, k, s.next + 1)
    && (forall st :: st in s.jobs ==> stripeOf(s.jobs[st].key) == st)
    && forall st :: st in s.jobs && s.jobs[st].key == k && s.jobs[st].phase.Stamped? ==>
         Below(s, k, s.jobs[st].phase.ts) && s.jobs[st].phase.ts <= s.next
  }

  lemma {:induction false} LookupAbove(cells: map<Cell, Payload>, k: Key, a: nat, b: nat)
    requires a <= b && forall v: nat :: Cell(k, v) in cells ==> v <= a
    ensures Lookup(cells, k, a) == Lookup(cells, k, b)
  {
    if a < b { LookupAbove(cells, k, a, b - 1); }
  }

  ghost predicate Leaves(e: Event, k: Key) {
    e.OtherWrite? ==> e.cell.key != k
  }

  lemma StepOrderly(stripeOf: Key -> nat, a: System, e: Event, b: System, k: Key)
    requires Orderly(stripeOf, a, k) && Step(stripeOf, a, e, b) && Leaves(e, k)
    ensures Orderly(stripeOf, b, k)
  {}

  /** An increment reads the newest value of its key and writes a version newer than any other. */
  lemma FinishBumps(stripeOf: Key -> nat, a: System, e: Event, b: System, k: Key)
    requires Orderly(stripeOf, a, k) && Step(stripeOf, a, e, b) && e.Finish? && e.key == k
    ensures Now(b, k) == Bumped(Now(a, k), Inc(e.delta, e.at))
    ensures e.result.Some? ==> Now(b, k).number == e.result
    ensures Below(a, k, a.jobs[e.stripe].phase.ts)
  {
    var ts := a.jobs[e.stripe].phase.ts;
    LookupAbove(a.cells, k, ts, a.next);
    if e.result.Some? {
      LookupAbove(b.cells, k, ts, b.next);
      FormatRound(e.result.value);
    }
  }

  lemma OthersKeep(stripeOf: Key -> nat, a: System, e: Event, b: System, k: Key)
    requires Orderly(stripeOf, a, k) && Step(stripeOf, a, e, b) && Leaves(e, k) && !(e.Finish? && e.key == k)
    ensures Now(b, k) == Now(a, k)
  {
    forall v: nat ensures Same(a.cells, b.cells, Cell(k, v)) {}
    LookupAgrees(a.cells, b.cells, k, a.next);
    LookupAbove(b.cells, k, a.next, b.next);
  }

  lemma StepNow(stripeOf: Key -> nat, a: System, e: Event, b: System, k: Key)
    requires Orderly(stripeOf, a, k) && Step(stripeOf, a, e, b) && Leaves(e, k)
    ensures Orderly(stripeOf, b, k)
    ensures Now(b, k) == if e.Finish? && e.key == k then Bumped(Now(a, k), Inc(e.delta, e.at)) else Now(a, k)
  {
    StepOrderly(stripeOf, a, e, b, k);
    if e.Finish? && e.key == k { FinishBumps(stripeOf, a, e, b, k); } else { OthersKeep(stripeOf, a, e, b, k); }
  }

  /** No increment is lost: after any interleaving in which `k` is written by increments alone, it is the
      counter that its increments give one after another, in the order in which they finished. */
  lemma {:induction false} NoLostIncrement(stripeOf: Key -> nat, states: seq<System>, events: seq<Event>, k: Key)
    requires IsRun(stripeOf, states, events) && Orderly(stripeOf, states[0], k)
    requires forall i :: 0 <= i < |events| ==> Leaves(events[i], k)
    ensures Orderly(stripeOf, states[|events|], k)
    ensures Now(states[|events|], k) == After(Now(states[0], k), Increments(events, k))
  {
    if events != [] {
      var n := |events| - 1;
      NoLostIncrement(stripeOf, states[..n + 1], events[..n], k);
      StepNow(stripeOf, states[n], events[n], states[n + 1], k);
      var before := Increments(events[..n], k);
      if events[n].Finish? && events[n].key == k {
        assert Increments(events, k)[..|before|] == before;
      }
    }
  }

  // ---------------------------------------------------------------- what the increments add up to

  ghost function Sum(incs: seq<Inc>): int {
    if incs == [] then 0 else Sum(incs[..|incs| - 1]) + incs[|incs| - 1].delta
  }

  /** By how much the increments put off the expiry: the time between their two clock readings. */
  ghost function Drift(incs: seq<Inc>): int {
    if incs == [] then 0
    else Drift(incs[..|incs| - 1]) + incs[|incs| - 1].at.renew - incs[|incs| - 1].at.ttl
  }

  /** The clock runs forward, and the increments come before the counter is over. */
  ghost predicate InTime(c: Counter, incs: seq<Inc>) {
    c.expiry > 0 ==> forall i :: 0 <= i < |incs| ==>
      incs[i].at.ttl <= incs[i].at.renew && incs[i].at.ttl < c.expiry && incs[i].at.value < c.expiry
  }

  /** Increments in time add up, in 64-bit arithmetic; a counter that never expires goes on never
      expiring, and any other keeps its expiry but for the drift. */
  lemma {:induction false} IncrementsAddUp(c: Counter, incs: seq<Inc>)
    requires c.number.Some? && Int64(c.number.value) && InTime(c, incs)
    ensures After(c, incs).number == Some(Wrap(c.number.value + Sum(incs)))
    ensures if c.expiry > 0 then After(c, incs).expiry == c.expiry + Drift(incs) && Drift(incs) >= 0
            else After(c, incs).expiry <= 0
  {
    if incs == [] {
      WrapFits(c.number.value);
    } else {
      var n := |incs| - 1;
      IncrementsAddUp(c, incs[..n]);
      WrapTwice(c.number.value + Sum(incs[..n]), incs[n].delta);
    }
  }

  lemma {:induction false} DriftIs(incs: seq<Inc>)
    requires forall i :: 0 <= i < |incs| ==> incs[i].at.ttl <= incs[i].at.renew
    ensures Drift(incs) >= 0
    ensures Drift(incs) == 0 <==> forall i :: 0 <= i < |incs| ==> incs[i].at.ttl == incs[i].at.renew
  {
    if incs != [] { DriftIs(incs[..|incs| - 1]); }
  }

  /** Increments in time leave the expiry as it was if and only if each of them read the same time twice. */
  lemma ExpiryKeptIff(c: Counter, incs: seq<Inc>)
    requires c.number.Some? && Int64(c.number.value) && c.expiry > 0 && InTime(c, incs)
    ensures After(c, incs).expiry == c.expiry <==> forall i :: 0 <= i < |incs| ==> incs[i].at.ttl == incs[i].at.renew
  {
    IncrementsAddUp(c, incs);
    DriftIs(incs);
  }

  /** A counter that expires at 100, incremented when the clock goes from 10 to 11, expires at 101. */
  lemma ExpiryDrifts()
    ensures After(Counter(Some(0), 100), [Inc(1, Readings(10, 11, 11))]) == Counter(Some(1), 101)
  {
    var c, incs := Counter(Some(0), 100), [Inc(1, Readings(10, 11, 11))];
    assert incs[..0] == [] && After(c, incs[..0]) == c;
  }

  lemma WrapTwice(x: int, d: int)
    ensures Wrap(Wrap(x) + d) == Wrap(x + d)
  {}

  // ---------------------------------------------------------------- one step, told from what is stored

  /** What an increment finds: nothing, a deleted, expired or empty value counts as zero; otherwise the text
      is parsed. */
  lemma FinishMeans(stripeOf: Key -> nat, a: System, b: System, st: nat, k: Key, d: int, at: Readings, r: Option<int>)
    requires Step(stripeOf, a, Finish(st, k, d, at, r), b) && Int64(d)
    ensures st in a.jobs && a.jobs[st].phase.Stamped?
    ensures var ts := a.jobs[st].phase.ts;
            var stored := Lookup(a.cells, k, ts);
            var none := stored.None? || stored.value.deleted || stored.value.value == []
                        || (stored.value.expiresAt > 0 && at.value >= stored.value.expiresAt);
            && (none ==> r == Some(d))
            && (!none ==> r == if Parse(stored.value.value).None? then None
                               else Some(Wrap(Parse(stored.value.value).value + d)))
            && (r.None? ==> b.cells == a.cells)
            && (r.Some? ==> Cell(k, ts) in b.cells && Parse(b.cells[Cell(k, ts)].value) == r
                            && !b.cells[Cell(k, ts)].deleted)
  {
    WrapFits(d);
    if r.Some? { FormatRound(r.value); }
  }

  /** An increment of a key that is not there, with nobody else about. */
  lemma OneIncrement(stripeOf: Key -> nat, k: Key, d: int, at: Readings)
    returns (states: seq<System>, events: seq<Event>)
    requires Int64(d)
    ensures IsRun(stripeOf, states, events) && states[0] == System(0, map[], map[])
    ensures states[|events|].cells == map[Cell(k, 1) := Payload(Format(d), false, 0)] && states[|events|].jobs == map[]
  {
    var st := stripeOf(k);
    var s0 := System(0, map[], map[]);
    var s1 := s0.(jobs := map[st := Job(k, d, Held)]);
    var s2 := s1.(next := 1, jobs := map[st := Job(k, d, Stamped(1))]);
    var s3 := System(1, map[Cell(k, 1) := Payload(Format(d), false, 0)], map[]);
    states, events := [s0, s1, s2, s3], [Lock(st, k, d), Stamp(st), Finish(st, k, d, at, Some(d))];
    WrapFits(d);
    assert s0.jobs[st := Job(k, d, Held)] == s1.jobs;
    assert Step(stripeOf, s0, events[0], s1);
    assert s1.jobs[st := s1.jobs[st].(phase := Stamped(1))] == s2.jobs;
    assert Step(stripeOf, s1, events[1], s2);
    assert Lookup(s2.cells, k, 1) == None;
    assert s2.jobs - {st} == s3.jobs;
    assert s2.cells[Cell(k, 1) := Payload(Format(d), false, 0)] == s3.cells;
    assert Step(stripeOf, s2, events[2], s3);
  }
}
