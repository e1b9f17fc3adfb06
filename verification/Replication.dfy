/** The replication backlog: a ring of the latest writes, and what replaying a suffix of them gives. */
module Replication {
  import opened Store

  datatype Op = Put(key: Key, value: Bytes) | Delete(key: Key)
  datatype Entry = Entry(op: Op, number: nat)

  // ---------------------------------------------------------------- the ring

  /** The `i`-th slot from `head` on. */
  function Slot(head: nat, i: nat, capacity: nat): (s: nat)
    requires head < capacity && i <= capacity
    ensures s < capacity
  {
    if head + i < capacity then head + i else head + i - capacity
  }

  lemma SlotIs(head: nat, i: nat, capacity: nat)
    requires head < capacity && i <= capacity
    ensures (head + i) % capacity == Slot(head, i, capacity)
  {
    if head + i >= capacity { WrapOnce(head + i - capacity, capacity); }
  }

  lemma WrapOnce(x: nat, capacity: nat)
    requires x < capacity
    ensures (x + capacity) % capacity == x
  {}

  /** Write number `n`, counting from 1. */
  ghost predicate IsWrite(e: Entry, log: seq<Op>, n: nat) {
    0 < n <= |log| && e == Entry(log[n - 1], n)
  }

  /** The ring holds the latest writes, the oldest of them at `head`. */
  ghost predicate Ring(es: seq<Entry>, head: nat, count: nat, log: seq<Op>) {
    && head < |es| && count == (if |log| < |es| then |log| else |es|)
    && forall i :: 0 <= i < count ==> IsWrite(es[Slot(head, i, |es|)], log, |log| - count + i + 1)
  }

  lemma PushRing(es: seq<Entry>, head: nat, count: nat, log: seq<Op>, op: Op, es': seq<Entry>, head': nat)
    requires Ring(es, head, count, log) && es' == es[Slot(head, count, |es|) := Entry(op, |log| + 1)]
    requires head' == if count < |es| then head else Slot(head, 1, |es|)
    ensures Ring(es', head', if count < |es| then count + 1 else count, log + [op])
  {
    var log', size := log + [op], |es|;
    var count' := if count < size then count + 1 else count;
    forall i | 0 <= i < count' ensures IsWrite(es'[Slot(head', i, size)], log', |log'| - count' + i + 1) {
      if i < count' - 1 {
        var was := if count < size then i else i + 1;
        assert Slot(head', i, size) == Slot(head, was, size) != Slot(head, count, size);
        assert IsWrite(es[Slot(head, was, size)], log, |log| - count + was + 1);
      } else {
        assert Slot(head', i, size) == Slot(head, count, size);
      }
    }
  }

  /** The writes after the first `from`, in order. */
  ghost predicate AreWrites(out: seq<Entry>, log: seq<Op>, from: nat) {
    from + |out| <= |log| && forall i :: 0 <= i < |out| ==> IsWrite(out[i], log, from + i + 1)
  }

  class Backlog {
    var entries: array<Entry>
    var head: nat
    var tail: nat
    var count: nat
    const capacity: nat
    var nextSeq: nat
    /** Every write ever pushed. */
    ghost var log: seq<Op>

    ghost predicate Valid()
      reads this, entries
    {
      && capacity > 0 && entries.Length == capacity && nextSeq == |log| && count <= capacity
      && Ring(entries[..], head, count, log) && tail == Slot(head, count, capacity)
    }

    constructor (size: nat)
      requires size > 0
      ensures Valid() && fresh(entries) && capacity == size && log == []
    {
      entries := new Entry[size](_ => Entry(Delete([]), 0));
      head, tail, count, capacity, nextSeq, log := 0, 0, 0, size, 0, [];
    }

    method Push(op: Op) returns (number: nat)
      requires Valid()
      modifies this, entries
      ensures Valid() && entries == old(entries) && log == old(log) + [op] && number == |log|
    {
      SlotIs(tail, 1, capacity);
      SlotIs(head, 1, capacity);
      nextSeq := nextSeq + 1;
      entries[tail] := Entry(op, nextSeq);
      tail := (tail + 1) % capacity;
      if count < capacity {
        count := count + 1;
      } else {
        head := (head + 1) % capacity;
      }
      PushRing(old(entries[..]), old(head), old(count), log, op, entries[..], head);
      log := log + [op];
      number := nextSeq;
    }

    /** The writes after `lastSeq`, unless it is zero, not yet assigned, or its successor has been
        overwritten. */
    method Since(lastSeq: nat) returns (out: seq<Entry>, ok: bool)
      requires Valid()
      ensures ok <==> 0 < lastSeq <= |log| && |log| - lastSeq <= capacity
      ensures ok ==> AreWrites(out, log, lastSeq) && |out| == |log| - lastSeq
    {
      out := [];
      if lastSeq == 0 || lastSeq > nextSeq { return out, false; }
      var oldest := nextSeq - count + 1;
      if lastSeq + 1 < oldest { return out, false; }
      for i := 0 to count
        invariant AreWrites(out, log, lastSeq)
        invariant |out| == if oldest - 1 + i <= lastSeq then 0 else oldest - 1 + i - lastSeq
      {
        SlotIs(head, i, capacity);
        var e := entries[(head + i) % capacity];
        assert IsWrite(entries[..][Slot(head, i, capacity)], log, |log| - count + i + 1);
        if e.number > lastSeq { out := out + [e]; }
      }
      ok := true;
    }
  }

  // ---------------------------------------------------------------- replaying a suffix

  type Kv = map<Key, Bytes>

  function Apply(kv: Kv, op: Op): Kv {
    match op
    case Put(k, v) => kv[k := v]
    case Delete(k) => kv - {k}
  }

  function Run(kv: Kv, ops: seq<Op>): Kv {
    if ops == [] then kv else Apply(Run(kv, ops[..|ops| - 1]), ops[|ops| - 1])
  }

  function At(kv: Kv, k: Key): Option<Bytes> {
    if k in kv then Some(kv[k]) else None
  }

  /** Entry `i` of `log` is the last one on `k`. */
  ghost predicate LastOn(log: seq<Op>, k: Key, i: nat) {
    i < |log| && log[i].key == k && forall j :: i < j < |log| ==> log[j].key != k
  }

  /** `k` has the value of its last entry; it is not there if that deletes it or there is none. */
  ghost predicate KeyState(kv: Kv, log: seq<Op>, k: Key) {
    && (forall i: nat :: LastOn(log, k, i) ==> if log[i].Put? then k in kv && kv[k] == log[i].value else k !in kv)
    && ((forall i :: 0 <= i < |log| ==> log[i].key != k) ==> k !in kv)
  }

  ghost predicate StateOf(kv: Kv, log: seq<Op>) {
    forall k :: KeyState(kv, log, k)
  }

  /** What a log amounts to, told from its entries. */
  lemma RunHolds(log: seq<Op>)
    ensures StateOf(Run(map[], log), log)
  {
    forall k ensures KeyState(Run(map[], log), log, k) { KeyHolds(log, k); }
  }

  lemma {:induction false} KeyHolds(log: seq<Op>, k: Key)
    ensures KeyState(Run(map[], log), log, k)
  {
    if log != [] {
      var n := |log| - 1;
      var front := log[..n];
      KeyHolds(front, k);
      if log[n].key == k {
        assert forall i: nat :: LastOn(log, k, i) ==> i == n;
      } else {
        forall i: nat | LastOn(log, k, i) ensures LastOn(front, k, i) { assert front[i] == log[i]; }
      }
    }
  }

  /** Key `k` has the value it had after the first `n` writes. */
  ghost predicate AsOf(kv: Kv, log: seq<Op>, k: Key, n: nat) {
    n <= |log| && At(kv, k) == At(Run(map[], log[..n]), k)
  }

  ghost predicate KeyPast(kv: Kv, log: seq<Op>, from: nat, k: Key) {
    exists n :: from <= n && AsOf(kv, log, k, n)
  }

  /** Every key has the value of some moment after write `from`: the state of a replica that has had
      the first `from` writes, and perhaps some of the later ones, some of them again. */
  ghost predicate CaughtUpTo(kv: Kv, log: seq<Op>, from: nat) {
    forall k :: KeyPast(kv, log, from, k)
  }

  /** A key that is not written between two points has the same value at both. */
  lemma {:induction false} Unwritten(log: seq<Op>, k: Key, m: nat, n: nat)
    requires m <= n <= |log| && forall i :: m <= i < n ==> log[i].key != k
    ensures At(Run(map[], log[..n]), k) == At(Run(map[], log[..m]), k)
  {
    if m < n {
      Unwritten(log, k, m, n - 1);
      assert log[..n][..n - 1] == log[..n - 1];
    }
  }

  ghost predicate WrittenIn(log: seq<Op>, from: nat, to: nat, k: Key) {
    exists i :: from <= i < to && i < |log| && log[i].key == k
  }

  /** Running part of the log sets a key as the whole log does once the part writes it, and leaves it
      alone otherwise. */
  lemma {:induction false} LastWrite(kv: Kv, log: seq<Op>, from: nat, to: nat, k: Key)
    requires from <= to <= |log|
    ensures At(Run(kv, log[from..to]), k) ==
        if WrittenIn(log, from, to, k) then At(Run(map[], log[..to]), k) else At(kv, k)
  {
    if from < to {
      LastWrite(kv, log, from, to - 1, k);
      RunSnoc(kv, log, from, to);
      RunSnoc(map[], log, 0, to);
      assert log[0..to] == log[..to] && log[0..to - 1] == log[..to - 1];
      assert WrittenIn(log, from, to, k) <==> WrittenIn(log, from, to - 1, k) || log[to - 1].key == k;
    }
  }

  lemma RunSnoc(kv: Kv, log: seq<Op>, from: nat, to: nat)
    requires from < to <= |log|
    ensures Run(kv, log[from..to]) == Apply(Run(kv, log[from..to - 1]), log[to - 1])
  {
    assert log[from..to][..to - from - 1] == log[from..to - 1];
  }

  /** A replica that replays from a point it has passed has passed the end of what it replayed, even
      when it had been further. */
  lemma ReplayAdvances(kv: Kv, log: seq<Op>, from: nat, to: nat)
    requires from <= to <= |log| && CaughtUpTo(kv, log, from)
    ensures CaughtUpTo(Run(kv, log[from..to]), log, to)
  {
    var kv' := Run(kv, log[from..to]);
    forall k ensures KeyPast(kv', log, to, k) {
      LastWrite(kv, log, from, to, k);
      if WrittenIn(log, from, to, k) {
        assert AsOf(kv', log, k, to);
      } else {
        assert KeyPast(kv, log, from, k);
        var n :| from <= n && AsOf(kv, log, k, n);
        if n < to { Unwritten(log, k, n, to); }
        assert AsOf(kv', log, k, if n < to then to else n);
      }
    }
  }

  /** Later writes take nothing away. */
  lemma WriteKeeps(kv: Kv, log: seq<Op>, from: nat, op: Op)
    requires CaughtUpTo(kv, log, from)
    ensures CaughtUpTo(kv, log + [op], from)
  {
    forall k ensures KeyPast(kv, log + [op], from, k) {
      assert KeyPast(kv, log, from, k);
      var n :| from <= n && AsOf(kv, log, k, n);
      assert (log + [op])[..n] == log[..n];
      assert AsOf(kv, log + [op], k, n);
    }
  }

  /** Less is easier. */
  lemma EarlierPoint(kv: Kv, log: seq<Op>, from: nat, to: nat)
    requires from <= to && CaughtUpTo(kv, log, to)
    ensures CaughtUpTo(kv, log, from)
  {
    forall k ensures KeyPast(kv, log, from, k) { assert KeyPast(kv, log, to, k); }
  }

  /** Replaying everything after a point that the replica has reached, or any longer suffix, gives the
      state of the whole log. */
  lemma SuffixCatchesUp(kv: Kv, log: seq<Op>, from: nat)
    requires from <= |log| && CaughtUpTo(kv, log, from)
    ensures Run(kv, log[from..]) == Run(map[], log)
  {
    var now := Run(kv, log[from..]);
    assert log[from..|log|] == log[from..] && log[..|log|] == log;
    forall k ensures At(now, k) == At(Run(map[], log), k) {
      LastWrite(kv, log, from, |log|, k);
      if !WrittenIn(log, from, |log|, k) {
        assert KeyPast(kv, log, from, k);
        var n :| from <= n && AsOf(kv, log, k, n);
        Unwritten(log, k, n, |log|);
      }
    }
    SameAt(now, Run(map[], log));
  }

  lemma SameAt(a: Kv, b: Kv)
    requires forall k :: At(a, k) == At(b, k)
    ensures a == b
  {
    forall k ensures k in a <==> k in b { assert At(a, k) == At(b, k); }
    forall k | k in a ensures a[k] == b[k] { assert At(a, k) == At(b, k); }
  }

  /** What `Since` returns, applied by a replica at that point or after it, gives the state of every
      write pushed so far. */
  lemma SinceCatchesUp(kv: Kv, log: seq<Op>, lastSeq: nat, out: seq<Entry>)
    requires AreWrites(out, log, lastSeq) && lastSeq + |out| == |log| && CaughtUpTo(kv, log, lastSeq)
    ensures StateOf(Run(kv, seq(|out|, i requires 0 <= i < |out| => out[i].op)), log)
    ensures Run(kv, seq(|out|, i requires 0 <= i < |out| => out[i].op)) == Run(map[], log)
  {
    var ops := seq(|out|, i requires 0 <= i < |out| => out[i].op);
    assert ops == log[lastSeq..] by {
      forall i | 0 <= i < |ops| ensures ops[i] == log[lastSeq..][i] { assert IsWrite(out[i], log, lastSeq + i + 1); }
    }
    SuffixCatchesUp(kv, log, lastSeq);
    RunHolds(log);
  }

  // ---------------------------------------------------------------- every run

  /** The writes of the master, the state of a replica, and the last number it was told. */
  datatype Link = Link(log: seq<Op>, kv: Kv, lastSeq: nat)

  datatype Event = Write(op: Op) | Replay(to: nat, marked: bool)

  /** The master writes, or the replica replays from its number on as far as the connection lasts and
      is told the number it has reached, or is cut off before. */
  ghost predicate Step(a: Link, e: Event, b: Link) {
    match e
    case Write(op) => b == a.(log := a.log + [op])
    case Replay(to, marked) =>
      && a.lastSeq <= to <= |a.log|
      && b == Link(a.log, Run(a.kv, a.log[a.lastSeq..to]), if marked then to else a.lastSeq)
  }

  ghost predicate IsRun(states: seq<Link>, events: seq<Event>) {
    |states| == |events| + 1 && forall i :: 0 <= i < |events| ==> Step(states[i], events[i], states[i + 1])
  }

  ghost predicate Synced(s: Link) {
    s.lastSeq <= |s.log| && CaughtUpTo(s.kv, s.log, s.lastSeq)
  }

  lemma StepSynced(a: Link, e: Event, b: Link)
    requires Synced(a) && Step(a, e, b)
    ensures Synced(b)
  {
    match e
    case Write(op) => WriteKeeps(a.kv, a.log, a.lastSeq, op);
    case Replay(to, marked) =>
      ReplayAdvances(a.kv, a.log, a.lastSeq, to);
      if !marked { EarlierPoint(b.kv, b.log, a.lastSeq, to); }
  }

  /** After any run of writes and interrupted replays, replaying the rest gives the master's state. */
  lemma {:induction false} EveryRunCatchesUp(states: seq<Link>, events: seq<Event>)
    requires IsRun(states, events) && Synced(states[0])
    ensures var s := states[|events|];
            && Synced(s) && Run(s.kv, s.log[s.lastSeq..]) == Run(map[], s.log)
            && StateOf(Run(s.kv, s.log[s.lastSeq..]), s.log)
  {
    if events != [] {
      var n := |events| - 1;
      assert IsRun(states[..n + 1], events[..n]);
      EveryRunCatchesUp(states[..n + 1], events[..n]);
      StepSynced(states[n], events[n], states[n + 1]);
    }
    var s := states[|events|];
    SuffixCatchesUp(s.kv, s.log, s.lastSeq);
    RunHolds(s.log);
  }
}
