/** K-way merges of sorted sources, as objects that advance one entry at a time. The library heap
    they use is represented by what it provides: popping a least item. */
module MergeIterators {
  import opened Store
  import opened ByteOrder
  import opened Entries

  ghost predicate InOrder(es: Run) {
    forall i, j :: 0 <= i < j < |es| ==> NotAfter(es[i].cell, es[j].cell)
  }

  /** Everything the sources still have to give. */
  ghost function Rest(sources: seq<Run>, pos: seq<nat>): multiset<Entry>
    requires |pos| == |sources| && forall i :: 0 <= i < |pos| ==> pos[i] <= |sources[i]|
  {
    if sources == [] then multiset{}
    else multiset(sources[0][pos[0]..]) + Rest(sources[1..], pos[1..])
  }

  lemma {:induction false} RestMembers(sources: seq<Run>, pos: seq<nat>, e: Entry)
    requires |pos| == |sources| && forall i :: 0 <= i < |pos| ==> pos[i] <= |sources[i]|
    ensures e in Rest(sources, pos) <==> exists i :: 0 <= i < |sources| && e in sources[i][pos[i]..]
  {
    if sources != [] {
      RestMembers(sources[1..], pos[1..], e);
      if exists i :: 0 <= i < |sources| && e in sources[i][pos[i]..] {
        var i :| 0 <= i < |sources| && e in sources[i][pos[i]..];
        if i > 0 { assert sources[1..][i - 1] == sources[i] && pos[1..][i - 1] == pos[i]; }
        else { assert e in multiset(sources[0][pos[0]..]); }
      }
      if exists i :: 0 <= i < |sources[1..]| && e in sources[1..][i][pos[1..][i]..] {
        var i :| 0 <= i < |sources[1..]| && e in sources[1..][i][pos[1..][i]..];
        assert sources[i + 1] == sources[1..][i] && pos[i + 1] == pos[1..][i];
      }
    }
  }

  /** Taking the head of one source takes exactly that entry. */
  lemma {:induction false} RestAdvance(sources: seq<Run>, pos: seq<nat>, t: nat)
    requires |pos| == |sources| && forall i :: 0 <= i < |pos| ==> pos[i] <= |sources[i]|
    requires t < |sources| && pos[t] < |sources[t]|
    ensures Rest(sources, pos) == Rest(sources, pos[t := pos[t] + 1]) + multiset{sources[t][pos[t]]}
  {
    var pos' := pos[t := pos[t] + 1];
    if t == 0 {
      assert sources[0][pos[0]..] == [sources[0][pos[0]]] + sources[0][pos[0] + 1..];
      assert pos'[1..] == pos[1..];
    } else {
      RestAdvance(sources[1..], pos[1..], t - 1);
      assert pos'[1..] == pos[1..][t - 1 := pos[t] + 1];
    }
  }

  /** The least head is not after anything left in sorted sources. */
  lemma LeastOfAll(sources: seq<Run>, pos: seq<nat>, top: nat, e: Entry)
    requires |pos| == |sources| && forall i :: 0 <= i < |pos| ==> pos[i] <= |sources[i]|
    requires top < |pos| && pos[top] < |sources[top]|
    requires forall i :: 0 <= i < |sources| ==> InOrder(sources[i])
    requires forall i :: 0 <= i < |sources| && pos[i] < |sources[i]| ==>
        NotAfter(sources[top][pos[top]].cell, sources[i][pos[i]].cell)
    requires e in Rest(sources, pos)
    ensures NotAfter(sources[top][pos[top]].cell, e.cell)
  {
    RestMembers(sources, pos, e);
    var i :| 0 <= i < |sources| && e in sources[i][pos[i]..];
    var j :| 0 <= j < |sources[i][pos[i]..]| && sources[i][pos[i]..][j] == e;
    if j > 0 {
      assert NotAfter(sources[i][pos[i]].cell, sources[i][pos[i] + j].cell);
      NotAfterTrans(sources[top][pos[top]].cell, sources[i][pos[i]].cell, e.cell);
    }
  }

  /** One cursor per source, and the sources that still have a head. */
  class Cursors {
    const sources: seq<Run>
    var pos: seq<nat>
    var heap: set<nat>

    ghost predicate Valid()
      reads this
    {
      && |pos| == |sources|
      && (forall i :: 0 <= i < |pos| ==> pos[i] <= |sources[i]|)
      && (forall i :: i in heap <==> 0 <= i < |pos| && pos[i] < |sources[i]|)
    }

    ghost function Remaining(): multiset<Entry>
      requires Valid()
      reads this
    {
      Rest(sources, pos)
    }

    constructor (sources: seq<Run>)
      ensures Valid() && this.sources == sources
      ensures forall e :: e in Remaining() <==> exists i :: 0 <= i < |sources| && e in sources[i]
      ensures pos == seq(|sources|, _ => 0)
    {
      this.sources := sources;
      pos := seq(|sources|, _ => 0);
      heap := set i | 0 <= i < |sources| && |sources[i]| > 0;
      new;
      forall e ensures e in Remaining() <==> exists i :: 0 <= i < |sources| && e in sources[i] {
        RestMembers(sources, pos, e);
        assert forall i :: 0 <= i < |sources| ==> sources[i][pos[i]..] == sources[i];
      }
    }

    function Head(i: nat): Entry
      requires Valid() && i in heap
      reads this
    {
      sources[i][pos[i]]
    }

    /** A source whose head comes first. */
    method Least() returns (top: nat)
      requires Valid() && heap != {}
      ensures top in heap && forall i :: i in heap ==> NotAfter(Head(top).cell, Head(i).cell)
    {
      top :| top in heap;
      var todo := heap - {top};
      NotAfterTotal(Head(top).cell, Head(top).cell);
      while todo != {}
        invariant todo <= heap && top in heap && top !in todo
        invariant forall i :: i in heap && i !in todo ==> NotAfter(Head(top).cell, Head(i).cell)
      {
        var i :| i in todo;
        todo := todo - {i};
        NotAfterTotal(Head(top).cell, Head(i).cell);
        if Before(Head(i).cell, Head(top).cell) {
          forall j | j in heap && j !in todo ensures NotAfter(Head(i).cell, Head(j).cell) {
            if j != i { NotAfterTrans(Head(i).cell, Head(top).cell, Head(j).cell); }
          }
          top := i;
        }
      }
    }

    /** Pops the head of `top` and moves that source on. */
    method Pop(top: nat) returns (e: Entry)
      requires Valid() && top in heap
      modifies this
      ensures Valid() && e == old(Head(top))
      ensures old(Remaining()) == Remaining() + multiset{e}
      ensures pos == old(pos)[top := old(pos)[top] + 1]
    {
      e := Head(top);
      RestAdvance(sources, pos, top);
      pos := pos[top := pos[top] + 1];
      heap := if pos[top] == |sources[top]| then heap - {top} else heap;
    }

    /** One step of the merge that keeps every version: the first of all that is left. */
    method NextVersion() returns (e: Entry)
      requires Valid() && heap != {} && forall i :: 0 <= i < |sources| ==> InOrder(sources[i])
      modifies this
      ensures Valid() && old(Remaining()) == Remaining() + multiset{e}
      ensures forall f :: f in old(Remaining()) ==> NotAfter(e.cell, f.cell)
    {
      var top := Least();
      forall f | f in Remaining() ensures NotAfter(Head(top).cell, f.cell) {
        LeastOfAll(sources, pos, top, f);
      }
      e := Pop(top);
    }
  }

  lemma {:induction false} RestEmpty(sources: seq<Run>, pos: seq<nat>)
    requires |pos| == |sources| && forall i :: 0 <= i < |pos| ==> pos[i] == |sources[i]|
    ensures Rest(sources, pos) == multiset{}
  {
    if sources != [] { RestEmpty(sources[1..], pos[1..]); }
  }

  ghost predicate AllNotAfter(a: multiset<Entry>, b: multiset<Entry>) {
    forall e, f :: e in a && f in b ==> NotAfter(e.cell, f.cell)
  }

  lemma AppendInOrder(out: Run, e: Entry)
    requires InOrder(out) && forall d :: d in out ==> NotAfter(d.cell, e.cell)
    ensures InOrder(out + [e])
  {}

  /** What a compaction reads: a permutation of its inputs in storage order. */
  method MergeVersions(sources: seq<Run>) returns (out: Run)
    requires forall i :: 0 <= i < |sources| ==> InOrder(sources[i])
    ensures InOrder(out)
    ensures multiset(out) == Rest(sources, seq(|sources|, _ => 0))
  {
    var c := new Cursors(sources);
    ghost var all := c.Remaining();
    out := [];
    while c.heap != {}
      invariant c.Valid() && fresh(c) && c.sources == sources
      invariant Drained(out, c.Remaining(), all)
      decreases |c.Remaining()|
    {
      ghost var before := c.Remaining();
      var e := c.NextVersion();
      DrainOne(out, before, all, e, c.Remaining());
      out := out + [e];
    }
    RestEmpty(sources, c.pos);
  }

  /** What has been put out so far and what is left. */
  ghost predicate Drained(out: Run, rest: multiset<Entry>, all: multiset<Entry>) {
    all == rest + multiset(out) && InOrder(out) && AllNotAfter(multiset(out), rest)
  }

  lemma DrainOne(out: Run, before: multiset<Entry>, all: multiset<Entry>, e: Entry, after: multiset<Entry>)
    requires Drained(out, before, all) && before == after + multiset{e}
    requires forall f :: f in before ==> NotAfter(e.cell, f.cell)
    ensures Drained(out + [e], after, all) && |after| < |before|
  {
    assert e in before;
    AppendInOrder(out, e);
  }

  // ---------------------------------------------------------------- the merge that reads use

  ghost predicate KeysInOrder(es: Run) {
    forall i, j :: 0 <= i < j < |es| ==> Le(es[i].cell.key, es[j].cell.key)
  }

  lemma NotAfterKey(a: Cell, b: Cell)
    requires NotAfter(a, b)
    ensures Le(a.key, b.key)
  {}

  lemma LeastKeyOfAll(sources: seq<Run>, pos: seq<nat>, top: nat, e: Entry)
    requires |pos| == |sources| && forall i :: 0 <= i < |pos| ==> pos[i] <= |sources[i]|
    requires top < |pos| && pos[top] < |sources[top]|
    requires forall i :: 0 <= i < |sources| ==> KeysInOrder(sources[i])
    requires forall i :: 0 <= i < |sources| && pos[i] < |sources[i]| ==>
        NotAfter(sources[top][pos[top]].cell, sources[i][pos[i]].cell)
    requires e in Rest(sources, pos)
    ensures Le(sources[top][pos[top]].cell.key, e.cell.key)
  {
    RestMembers(sources, pos, e);
    var i :| 0 <= i < |sources| && e in sources[i][pos[i]..];
    var j :| 0 <= j < |sources[i][pos[i]..]| && sources[i][pos[i]..][j] == e;
    NotAfterKey(sources[top][pos[top]].cell, sources[i][pos[i]].cell);
    if j > 0 {
      assert Le(sources[i][pos[i]].cell.key, sources[i][pos[i] + j].cell.key);
      LeTrans(sources[top][pos[top]].cell.key, sources[i][pos[i]].cell.key, e.cell.key);
    }
  }

  ghost predicate VersionsUpTo(es: multiset<Entry>, r: Entry) {
    forall f :: f in es ==> f.cell.key == r.cell.key && f.cell.version <= r.cell.version
  }

  ghost predicate NoKeyBelow(es: multiset<Entry>, k: Key) {
    forall f :: f in es ==> Le(k, f.cell.key)
  }

  /** `r` is the newest of the least key of `before`, and `after` is what remains without that key. */
  ghost predicate TookKey(before: multiset<Entry>, r: Entry, after: multiset<Entry>) {
    && r in before
    && NoKeyBelow(before, r.cell.key)
    && (forall f :: f in before && f.cell.key == r.cell.key ==> f.cell.version <= r.cell.version)
    && (forall f :: after[f] == if f.cell.key == r.cell.key then 0 else before[f])
  }

  /** One step of the merge that skips older versions. */
  method NextKey(c: Cursors) returns (r: Entry)
    requires c.Valid() && c.heap != {} && forall i :: 0 <= i < |c.sources| ==> KeysInOrder(c.sources[i])
    modifies c
    ensures c.Valid() && TookKey(old(c.Remaining()), r, c.Remaining())
  {
    ghost var before := c.Remaining();
    var top := c.Least();
    forall f | f in before ensures Le(c.Head(top).cell.key, f.cell.key) {
      LeastKeyOfAll(c.sources, c.pos, top, f);
    }
    r := c.Pop(top);
    ghost var taken := multiset{r};
    while c.heap != {}
      invariant c.Valid() && before == c.Remaining() + taken
      invariant r in taken
      invariant VersionsUpTo(taken, r) && NoKeyBelow(before, r.cell.key)
      decreases |c.Remaining()|
    {
      var peek := c.Least();
      if c.Head(peek).cell.key != r.cell.key {
        NoneLeft(c, peek, r.cell.key, before);
        TakenAll(before, taken, c.Remaining(), r);
        return;
      }
      var dup := c.Pop(peek);
      TakeOne(taken, r, dup);
      taken := taken + multiset{dup};
      if dup.cell.version > r.cell.version { r := dup; }
    }
    RestEmpty(c.sources, c.pos);
    TakenAll(before, taken, c.Remaining(), r);
  }

  lemma TakeOne(taken: multiset<Entry>, r: Entry, dup: Entry)
    requires VersionsUpTo(taken, r) && dup.cell.key == r.cell.key
    ensures VersionsUpTo(taken + multiset{dup}, if dup.cell.version > r.cell.version then dup else r)
  {}

  lemma TakenAll(before: multiset<Entry>, taken: multiset<Entry>, after: multiset<Entry>, r: Entry)
    requires before == after + taken && r in taken
    requires VersionsUpTo(taken, r) && NoKeyBelow(before, r.cell.key)
    requires forall f :: f in after ==> f.cell.key != r.cell.key
    ensures TookKey(before, r, after)
  {
    forall f ensures after[f] == if f.cell.key == r.cell.key then 0 else before[f] {
      if f in taken { assert f.cell.key == r.cell.key; }
      if f in after { assert f.cell.key != r.cell.key; }
    }
  }

  /** Once the least head has moved past a key, nothing of that key is left. */
  lemma NoneLeft(c: Cursors, peek: nat, k: Key, before: multiset<Entry>)
    requires c.Valid() && peek in c.heap && c.Head(peek).cell.key != k
    requires forall i :: 0 <= i < |c.sources| ==> KeysInOrder(c.sources[i])
    requires forall i :: i in c.heap ==> NotAfter(c.Head(peek).cell, c.Head(i).cell)
    requires NoKeyBelow(before, k) && c.Remaining() <= before
    ensures forall f :: f in c.Remaining() ==> f.cell.key != k
  {
    RestMembers(c.sources, c.pos, c.Head(peek));
    assert c.Head(peek) == c.sources[peek][c.pos[peek]..][0];
    assert c.Head(peek) in c.Remaining();
    forall f | f in c.Remaining() ensures f.cell.key != k {
      LeastKeyOfAll(c.sources, c.pos, peek, f);
      if f.cell.key != c.Head(peek).cell.key {
        LtTrans(k, c.Head(peek).cell.key, f.cell.key);
        LtIrreflexive(k);
      }
    }
  }

  ghost predicate KeysIncrease(out: Run) {
    forall i, j :: 0 <= i < j < |out| ==> Lt(out[i].cell.key, out[j].cell.key)
  }

  lemma AppendIncrease(out: Run, e: Entry)
    requires KeysIncrease(out) && forall d :: d in out ==> Lt(d.cell.key, e.cell.key)
    ensures KeysIncrease(out + [e])
  {}

  ghost predicate From(sources: seq<Run>, e: Entry) {
    exists i :: 0 <= i < |sources| && e in sources[i]
  }

  /** `f` is represented in `out` by the same or a newer version of its key. */
  ghost predicate Covered(out: Run, f: Entry) {
    exists e :: e in out && e.cell.key == f.cell.key && f.cell.version <= e.cell.version
  }

  ghost predicate AllBelow(out: Run, rest: multiset<Entry>) {
    forall e, f :: e in out && f in rest ==> Lt(e.cell.key, f.cell.key)
  }

  ghost predicate CoversRest(all: multiset<Entry>, out: Run, rest: multiset<Entry>) {
    forall f :: f in all && f !in rest ==> Covered(out, f)
  }

  /** Every key of the sources once, in increasing order, with its newest version. */
  method MergeKeys(sources: seq<Run>) returns (out: Run)
    requires forall i :: 0 <= i < |sources| ==> KeysInOrder(sources[i])
    ensures KeysIncrease(out)
    ensures forall e :: e in out ==> From(sources, e)
    ensures forall f :: From(sources, f) ==> Covered(out, f)
  {
    var c := new Cursors(sources);
    ghost var all := c.Remaining();
    assert forall e :: e in all <==> From(sources, e);
    out := MergeAll(c);
  }

  method MergeAll(c: Cursors) returns (out: Run)
    requires c.Valid() && forall i :: 0 <= i < |c.sources| ==> KeysInOrder(c.sources[i])
    modifies c
    ensures KeysIncrease(out)
    ensures forall e :: e in out ==> e in old(c.Remaining())
    ensures forall f :: f in old(c.Remaining()) ==> Covered(out, f)
  {
    ghost var all := c.Remaining();
    out := [];
    while c.heap != {}
      invariant c.Valid() && c.Remaining() <= all
      invariant KeysIncrease(out) && AllBelow(out, c.Remaining())
      invariant multiset(out) <= all && CoversRest(all, out, c.Remaining())
      decreases |c.Remaining()|
    {
      ghost var before := c.Remaining();
      var r := NextKey(c);
      BelowStep(out, before, r, c.Remaining());
      CoversStep(all, out, before, r, c.Remaining());
      Shrinks(before, r, c.Remaining());
      AppendIncrease(out, r);
      TakenFrom(all, out, before, r);
      out := out + [r];
    }
    RestEmpty(c.sources, c.pos);
  }

  lemma TakenFrom(all: multiset<Entry>, out: Run, before: multiset<Entry>, r: Entry)
    requires multiset(out) <= all && before <= all && r in before && AllBelow(out, before)
    ensures multiset(out + [r]) <= all
  {
    if r in out { LtIrreflexive(r.cell.key); }
    assert r !in multiset(out);
  }

  lemma BelowStep(out: Run, before: multiset<Entry>, r: Entry, after: multiset<Entry>)
    requires AllBelow(out, before) && TookKey(before, r, after)
    ensures AllBelow(out + [r], after)
  {
    forall e, f | e in out + [r] && f in after ensures Lt(e.cell.key, f.cell.key) {
      assert f in before && f.cell.key != r.cell.key;
      if e !in out { assert e == r && Le(r.cell.key, f.cell.key); }
    }
  }

  lemma CoversStep(all: multiset<Entry>, out: Run, before: multiset<Entry>, r: Entry, after: multiset<Entry>)
    requires CoversRest(all, out, before) && TookKey(before, r, after)
    ensures CoversRest(all, out + [r], after)
  {
    forall f | f in all && f !in after ensures Covered(out + [r], f) {
      if f in before {
        assert f.cell.key == r.cell.key;
        assert r in out + [r];
      } else {
        assert Covered(out, f);
        var e :| e in out && e.cell.key == f.cell.key && f.cell.version <= e.cell.version;
        assert e in out + [r];
      }
    }
  }

  lemma Shrinks(before: multiset<Entry>, r: Entry, after: multiset<Entry>)
    requires TookKey(before, r, after)
    ensures |after| < |before| && after <= before
  {
    assert after <= before;
    assert before == after + (before - after);
    assert r in before - after;
  }
}
