/** The memtable: a multi-version skip list. Nodes live in an arena and refer to one another by
    index: node `n` holds the entry `data[n]`, and its forward pointers are the tower `fwd[n]`. */
module SkipList {
  import opened Store
  import opened ByteOrder
  import opened Entries

  const TOWER := 16

  type Id = nat

  const NO_POINTERS: seq<Option<Id>> :=
    [None, None, None, None, None, None, None, None, None, None, None, None, None, None, None, None]

  type Tower = t: seq<Option<Id>> | |t| == TOWER witness NO_POINTERS

  /** Node 0 is the head; its entry is never looked at. */
  const HEAD: Id := 0

  // ---------------------------------------------------------------- lists of nodes

  function KeyOf(data: seq<Entry>, n: Id): Key {
    if n < |data| then data[n].cell.key else []
  }

  /** `list` with `n` put in front of the first node whose key is not smaller. */
  ghost function Put(data: seq<Entry>, list: seq<Id>, n: Id): seq<Id> {
    if list != [] && Lt(KeyOf(data, list[0]), KeyOf(data, n)) then [list[0]] + Put(data, list[1..], n) else [n] + list
  }

  /** How many nodes at the front have a smaller key. */
  ghost function Below(data: seq<Entry>, list: seq<Id>, k: Key): (b: nat)
    ensures b <= |list|
  {
    if list != [] && Lt(KeyOf(data, list[0]), k) then 1 + Below(data, list[1..], k) else 0
  }

  ghost predicate KeySorted(data: seq<Entry>, list: seq<Id>) {
    forall i, j :: 0 <= i < j < |list| ==> !Lt(KeyOf(data, list[j]), KeyOf(data, list[i]))
  }

  /** In a key-sorted list the smaller keys are exactly the first `Below`. */
  lemma {:induction false} BelowSplits(data: seq<Entry>, list: seq<Id>, k: Key, i: nat)
    requires KeySorted(data, list) && i < |list|
    ensures Lt(KeyOf(data, list[i]), k) <==> i < Below(data, list, k)
  {
    if Lt(KeyOf(data, list[0]), k) {
      if i > 0 { BelowSplits(data, list[1..], k, i - 1); }
    } else if i > 0 {
      assert !Lt(KeyOf(data, list[i]), KeyOf(data, list[0]));
      NotLtTrans(KeyOf(data, list[i]), KeyOf(data, list[0]), k);
    }
  }

  lemma {:induction false} PutIsInsert(data: seq<Entry>, list: seq<Id>, n: Id)
    ensures var b := Below(data, list, KeyOf(data, n)); Put(data, list, n) == list[..b] + [n] + list[b..]
  {
    if list != [] && Lt(KeyOf(data, list[0]), KeyOf(data, n)) { PutIsInsert(data, list[1..], n); }
  }

  lemma PutSorted(data: seq<Entry>, list: seq<Id>, n: Id)
    requires KeySorted(data, list)
    ensures KeySorted(data, Put(data, list, n))
  {
    var k := KeyOf(data, n);
    var b := Below(data, list, k);
    PutIsInsert(data, list, n);
    var out := Put(data, list, n);
    forall i, j | 0 <= i < j < |out| ensures !Lt(KeyOf(data, out[j]), KeyOf(data, out[i])) {
      if i == b {
        BelowSplits(data, list, k, j - 1);
      } else if j == b {
        BelowSplits(data, list, k, i);
        assert Lt(KeyOf(data, out[i]), k);
        if Lt(k, KeyOf(data, out[i])) { LtAsym(k, KeyOf(data, out[i])); }
      }
    }
  }

  // ---------------------------------------------------------------- a level within the level below

  ghost predicate Sub(a: seq<Id>, b: seq<Id>) {
    a == [] || (b != [] && (if a[0] == b[0] then Sub(a[1..], b[1..]) else Sub(a, b[1..])))
  }

  lemma {:induction false} SubTail(a: seq<Id>, b: seq<Id>)
    requires Sub(a, b) && a != []
    ensures Sub(a[1..], b)
  {
    if a[0] == b[0] {
      if a[1..] != [] {
        if a[1..][0] == b[0] { SubTail(a[1..], b[1..]); }
      }
    } else {
      SubTail(a, b[1..]);
      if a[1..] != [] && a[1..][0] == b[0] { SubTail(a[1..], b[1..]); }
    }
  }

  lemma SubCons(a: seq<Id>, x: Id, b: seq<Id>)
    requires Sub(a, b)
    ensures Sub(a, [x] + b)
  {
    assert ([x] + b)[1..] == b;
    if a != [] && a[0] == x { SubTail(a, b); }
  }

  lemma {:induction false} SubMember(a: seq<Id>, b: seq<Id>, n: Id)
    requires Sub(a, b) && n in a
    ensures n in b
  {
    if a[0] == b[0] {
      if n != a[0] { SubMember(a[1..], b[1..], n); }
    } else {
      SubMember(a, b[1..], n);
    }
  }

  lemma SubSame(a: seq<Id>, x: Id, b: seq<Id>)
    requires Sub(a, b)
    ensures Sub([x] + a, [x] + b)
  {
    assert ([x] + a)[1..] == a && ([x] + b)[1..] == b;
  }

  /** The lower level gets a node first. */
  lemma {:induction false} SubPutLower(data: seq<Entry>, a: seq<Id>, b: seq<Id>, n: Id)
    requires Sub(a, b)
    ensures Sub(a, Put(data, b, n))
  {
    if b != [] && Lt(KeyOf(data, b[0]), KeyOf(data, n)) {
      if a != [] {
        if a[0] == b[0] {
          SubPutLower(data, a[1..], b[1..], n);
          SubSame(a[1..], b[0], Put(data, b[1..], n));
          assert a == [b[0]] + a[1..];
        } else {
          SubPutLower(data, a, b[1..], n);
          SubCons(a, b[0], Put(data, b[1..], n));
        }
      }
    } else {
      SubCons(a, n, b);
    }
  }

  lemma {:induction false} SubSorted(data: seq<Entry>, a: seq<Id>, b: seq<Id>)
    requires Sub(a, b) && KeySorted(data, b) && a != []
    ensures !Lt(KeyOf(data, a[0]), KeyOf(data, b[0]))
  {
    SubMember(a, b, a[0]);
    var i :| 0 <= i < |b| && b[i] == a[0];
    if i == 0 { LtIrreflexive(KeyOf(data, b[0])); }
  }

  /** Then the level above gets it, in the matching place. */
  lemma {:induction false} SubPutBoth(data: seq<Entry>, a: seq<Id>, b: seq<Id>, n: Id)
    requires Sub(a, b) && KeySorted(data, b)
    ensures Sub(Put(data, a, n), Put(data, b, n))
  {
    var k := KeyOf(data, n);
    if b == [] {
    } else if Lt(KeyOf(data, b[0]), k) {
      if a != [] && a[0] == b[0] {
        SubPutBoth(data, a[1..], b[1..], n);
        SubSame(Put(data, a[1..], n), b[0], Put(data, b[1..], n));
      } else {
        SubPutBoth(data, a, b[1..], n);
        SubCons(Put(data, a, n), b[0], Put(data, b[1..], n));
      }
    } else {
      if a != [] {
        SubSorted(data, a, b);
        NotLtTrans(KeyOf(data, a[0]), KeyOf(data, b[0]), k);
      }
      SubSame(a, n, b);
    }
  }

  // ---------------------------------------------------------------- pointers

  /** The node at position `p` of a level, counting from the head. */
  function At(list: seq<Id>, p: nat): Id
    requires p <= |list|
  {
    if p == 0 then HEAD else list[p - 1]
  }

  function NextAt(list: seq<Id>, p: nat): Option<Id> {
    if p < |list| then Some(list[p]) else None
  }

  /** The pointers of level `i` run through `list`. */
  ghost predicate Linked(fwd: seq<Tower>, list: seq<Id>, i: nat) {
    && i < TOWER && fwd != [] && (forall p :: 0 <= p < |list| ==> list[p] < |fwd|)
    && forall p :: 0 <= p <= |list| ==> fwd[At(list, p)][i] == NextAt(list, p)
  }

  /** No node twice, none the head, all in the arena. */
  ghost predicate Proper(data: seq<Entry>, list: seq<Id>) {
    && (forall i :: 0 <= i < |list| ==> 0 < list[i] < |data|)
    && forall i, j :: 0 <= i < j < |list| ==> list[i] != list[j]
  }

  function Point(fwd: seq<Tower>, u: Id, i: nat, to: Option<Id>): seq<Tower>
    requires u < |fwd| && i < TOWER
  {
    fwd[u := fwd[u][i := to]]
  }

  /** A store to another level, or to a node that is not in the level. */
  lemma PointKeeps(fwd: seq<Tower>, u: Id, i: nat, to: Option<Id>, list: seq<Id>, j: nat)
    requires u < |fwd| && i < TOWER && Linked(fwd, list, j) && (i == j ==> u != HEAD && u !in list)
    ensures Linked(Point(fwd, u, i, to), list, j)
  {
    forall p | 0 <= p <= |list| ensures Point(fwd, u, i, to)[At(list, p)][j] == NextAt(list, p) {
      assert fwd[At(list, p)][j] == NextAt(list, p);
    }
  }

  /** `out` is `list` with `n` at place `b`. */
  ghost predicate Inserted(list: seq<Id>, n: Id, b: nat, out: seq<Id>) {
    && b <= |list| && |out| == |list| + 1 && out[b] == n
    && (forall p :: 0 <= p < b ==> out[p] == list[p])
    && forall p :: b < p < |out| ==> out[p] == list[p - 1]
  }

  lemma SpliceLinked(fwd: seq<Tower>, list: seq<Id>, i: nat, n: Id, b: nat, out: seq<Id>)
    requires Linked(fwd, list, i) && 0 < n < |fwd| && n !in list && Inserted(list, n, b, out)
        && fwd[n][i] == NextAt(list, b)
    requires forall p, q :: 0 <= p < q <= |list| ==> At(list, p) != At(list, q)
    ensures Linked(Point(fwd, At(list, b), i, Some(n)), out, i)
  {
    var fwd' := Point(fwd, At(list, b), i, Some(n));
    forall p | 0 <= p <= |out| ensures fwd'[At(out, p)][i] == NextAt(out, p) {
      if p <= b {
        assert At(out, p) == At(list, p);
        assert fwd[At(list, p)][i] == NextAt(list, p);
      } else if p > b + 1 {
        assert At(out, p) == At(list, p - 1);
        assert fwd[At(list, p - 1)][i] == NextAt(list, p - 1);
      }
    }
  }

  lemma PutInserted(data: seq<Entry>, list: seq<Id>, n: Id)
    ensures Inserted(list, n, Below(data, list, KeyOf(data, n)), Put(data, list, n))
  {
    PutIsInsert(data, list, n);
  }

  lemma InsertedProper(data: seq<Entry>, list: seq<Id>, n: Id, b: nat, out: seq<Id>)
    requires Proper(data, list) && 0 < n < |data| && n !in list && Inserted(list, n, b, out)
    ensures Proper(data, out)
  {
    forall i, j | 0 <= i < j < |out| ensures out[i] != out[j] {
      if i == b { assert out[j] == list[j - 1]; }
      else if j == b { assert out[i] == list[i]; }
    }
  }

  /** One pointer store splices the new node into one level. */
  lemma SpliceLinks(data: seq<Entry>, fwd: seq<Tower>, list: seq<Id>, i: nat, n: Id, b: nat)
    requires Proper(data, list) && KeySorted(data, list) && Linked(fwd, list, i) && 0 < n < |data| == |fwd|
        && n !in list
    requires b == Below(data, list, KeyOf(data, n)) && fwd[n][i] == NextAt(list, b)
    ensures Proper(data, Put(data, list, n)) && KeySorted(data, Put(data, list, n))
    ensures Linked(Point(fwd, At(list, b), i, Some(n)), Put(data, list, n), i)
  {
    PutInserted(data, list, n);
    InsertedProper(data, list, n, b, Put(data, list, n));
    PutSorted(data, list, n);
    SpliceLinked(fwd, list, i, n, b, Put(data, list, n));
  }

  // ---------------------------------------------------------------- the whole structure

  type Lists = l: seq<seq<Id>> | |l| == TOWER witness seq(TOWER, _ => [])

  ghost predicate ListOk(data: seq<Entry>, fwd: seq<Tower>, lists: Lists, i: nat)
    requires i < TOWER
  {
    Proper(data, lists[i]) && KeySorted(data, lists[i]) && Linked(fwd, lists[i], i)
  }

  ghost predicate AllOk(data: seq<Entry>, fwd: seq<Tower>, lists: Lists) {
    forall i :: 0 <= i < TOWER ==> ListOk(data, fwd, lists, i)
  }

  /** Each level lies within the level below it. */
  ghost predicate Nested(lists: Lists) {
    forall i :: 0 < i < TOWER ==> Sub(lists[i], lists[i - 1])
  }

  /** Every level is key-sorted and lies within the level below it; levels from `level` on are
      empty. */
  ghost predicate Wf(data: seq<Entry>, fwd: seq<Tower>, lists: Lists, level: nat) {
    && |data| == |fwd| && 1 <= level <= TOWER && AllOk(data, fwd, lists) && Nested(lists)
    && (forall i :: level <= i < TOWER ==> lists[i] == [])
  }

  /** `n` is linked into the levels below `i`, and into no other. */
  ghost predicate LinkedTo(data: seq<Entry>, before: Lists, lists: Lists, n: Id, i: nat) {
    && (forall j :: 0 <= j < TOWER && j < i ==> lists[j] == Put(data, before[j], n))
    && (forall j :: i <= j < TOWER ==> lists[j] == before[j])
  }

  ghost predicate AllSorted(data: seq<Entry>, lists: Lists) {
    forall j :: 0 <= j < TOWER ==> KeySorted(data, lists[j])
  }

  /** Everything is in order again after the one pointer store that links `n` into level `i`. */
  lemma LinkKeeps(data: seq<Entry>, fwd: seq<Tower>, before: Lists, lists: Lists, level: nat, n: Id, i: nat, b: nat,
      lists': Lists)
    requires Wf(data, fwd, lists, level) && LinkedTo(data, before, lists, n, i) && i < level
    requires 0 < n < |data| && n !in lists[i] && b == Below(data, lists[i], KeyOf(data, n))
    requires fwd[n][i] == NextAt(lists[i], b) && AllSorted(data, before) && Nested(before)
    requires lists' == lists[i := Put(data, lists[i], n)]
    ensures At(lists[i], b) < |fwd| && Wf(data, Point(fwd, At(lists[i], b), i, Some(n)), lists', level)
    ensures LinkedTo(data, before, lists', n, i + 1)
  {
    assert ListOk(data, fwd, lists, i);
    LinkLists(data, fwd, lists, n, i, b, lists');
    LinkSub(data, before, lists, n, i, lists');
  }

  lemma LinkLists(data: seq<Entry>, fwd: seq<Tower>, lists: Lists, n: Id, i: nat, b: nat, lists': Lists)
    requires AllOk(data, fwd, lists) && i < TOWER && 0 < n < |data| == |fwd| && n !in lists[i]
    requires b == Below(data, lists[i], KeyOf(data, n)) && fwd[n][i] == NextAt(lists[i], b) && At(lists[i], b) < |fwd|
    requires lists' == lists[i := Put(data, lists[i], n)]
    ensures AllOk(data, Point(fwd, At(lists[i], b), i, Some(n)), lists')
  {
    var u := At(lists[i], b);
    assert ListOk(data, fwd, lists, i);
    SpliceLinks(data, fwd, lists[i], i, n, b);
    forall j | 0 <= j < TOWER ensures ListOk(data, Point(fwd, u, i, Some(n)), lists', j) {
      if j != i {
        assert ListOk(data, fwd, lists, j);
        PointKeeps(fwd, u, i, Some(n), lists[j], j);
      }
    }
  }

  lemma LinkSub(data: seq<Entry>, before: Lists, lists: Lists, n: Id, i: nat, lists': Lists)
    requires LinkedTo(data, before, lists, n, i) && i < TOWER && AllSorted(data, before) && Nested(before)
        && Nested(lists)
    requires lists' == lists[i := Put(data, lists[i], n)]
    ensures Nested(lists') && LinkedTo(data, before, lists', n, i + 1)
  {
    forall j | 0 < j < TOWER ensures Sub(lists'[j], lists'[j - 1]) {
      if j == i { SubPutBoth(data, before[i], before[i - 1], n); }
      else if j == i + 1 { SubPutLower(data, lists[j], lists[i], n); }
    }
  }

  // ---------------------------------------------------------------- a new node in the arena

  ghost predicate Within(data: seq<Entry>, list: seq<Id>) {
    forall i :: 0 <= i < |list| ==> list[i] < |data|
  }

  lemma AppendKeeps(data: seq<Entry>, fwd: seq<Tower>, lists: Lists, level: nat, e: Entry, t: Tower)
    requires Wf(data, fwd, lists, level)
    ensures Wf(data + [e], fwd + [t], lists, level)
  {
    forall i | 0 <= i < TOWER ensures ListOk(data + [e], fwd + [t], lists, i) {
      assert ListOk(data, fwd, lists, i);
      forall p | 0 <= p <= |lists[i]| ensures (fwd + [t])[At(lists[i], p)][i] == NextAt(lists[i], p) {
        assert fwd[At(lists[i], p)][i] == NextAt(lists[i], p);
      }
      forall a, b | 0 <= a < b < |lists[i]|
        ensures !Lt(KeyOf(data + [e], lists[i][b]), KeyOf(data + [e], lists[i][a])) {
        assert !Lt(KeyOf(data, lists[i][b]), KeyOf(data, lists[i][a]));
      }
    }
  }

  // ---------------------------------------------------------------- contents

  /** The entries of a level, in order. */
  function Contents(data: seq<Entry>, list: seq<Id>): Run
    requires Within(data, list)
  {
    seq(|list|, i requires 0 <= i < |list| => data[list[i]])
  }

  lemma {:induction false} PutContents(data: seq<Entry>, list: seq<Id>, n: Id)
    requires Within(data, list) && n < |data|
    ensures Within(data, Put(data, list, n))
        && Contents(data, Put(data, list, n)) == PutFront(Contents(data, list), data[n])
  {
    if list != [] && Lt(KeyOf(data, list[0]), KeyOf(data, n)) {
      PutContents(data, list[1..], n);
      assert Contents(data, list)[1..] == Contents(data, list[1..]);
      assert Contents(data, Put(data, list, n)) == [data[list[0]]] + Contents(data, Put(data, list[1..], n));
    } else {
      assert Contents(data, [n] + list) == [data[n]] + Contents(data, list);
    }
  }

  lemma {:induction false} BelowAppend(data: seq<Entry>, e: Entry, list: seq<Id>, k: Key)
    requires Within(data, list)
    ensures Below(data + [e], list, k) == Below(data, list, k)
  {
    if list != [] { BelowAppend(data, e, list[1..], k); }
  }

  // ---------------------------------------------------------------- searching

  /** A predecessor in one level is a place to start from in the level below. */
  lemma Descend(data: seq<Entry>, fwd: seq<Tower>, lists: Lists, level: nat, i: nat, k: Key) returns (p: nat)
    requires Wf(data, fwd, lists, level) && 0 < i < TOWER
    ensures p <= Below(data, lists[i - 1], k) && At(lists[i - 1], p) == At(lists[i], Below(data, lists[i], k))
  {
    var b := Below(data, lists[i], k);
    p := 0;
    if b > 0 {
      assert ListOk(data, fwd, lists, i) && ListOk(data, fwd, lists, i - 1);
      BelowSplits(data, lists[i], k, b - 1);
      SubMember(lists[i], lists[i - 1], lists[i][b - 1]);
      var q :| 0 <= q < |lists[i - 1]| && lists[i - 1][q] == lists[i][b - 1];
      BelowSplits(data, lists[i - 1], k, q);
      p := q + 1;
    }
  }

  /** `best` is the newest of the versions of `k` up to `max` among `es`. */
  ghost predicate IsNewest(es: Run, k: Key, max: nat, best: Option<Entry>) {
    && (best.None? ==> forall e :: e in es && e.cell.key == k ==> e.cell.version > max)
    && (best.Some? ==> best.value in es && best.value.cell.key == k && best.value.cell.version <= max)
    && (best.Some? ==>
          forall e :: e in es && e.cell.key == k && e.cell.version <= max ==> e.cell.version <= best.value.cell.version)
  }

  /** Behind the run of `k` there is no more of it. */
  lemma RunOfKey(data: seq<Entry>, list: seq<Id>, k: Key, p: nat, i: nat)
    requires KeySorted(data, list) && Below(data, list, k) <= p < |list| && KeyOf(data, list[p]) != k && p <= i < |list|
    ensures KeyOf(data, list[i]) != k
  {
    BelowSplits(data, list, k, p);
    LtTotal(KeyOf(data, list[p]), k);
    if i > p { assert !Lt(KeyOf(data, list[i]), KeyOf(data, list[p])); }
  }

  /** What the scan over the versions of `k` has seen. */
  ghost predicate NewestUpTo(data: seq<Entry>, list: seq<Id>, k: Key, max: nat, p: nat, best: Option<Id>)
    requires Within(data, list)
  {
    && (best.None? ==> forall i :: 0 <= i < p && i < |list| && KeyOf(data, list[i]) == k ==>
         data[list[i]].cell.version > max)
    && (best.Some? ==> best.value in list && KeyOf(data, best.value) == k && data[best.value].cell.version <= max)
    && (best.Some? ==>
          forall i :: 0 <= i < p && i < |list| && KeyOf(data, list[i]) == k && data[list[i]].cell.version <= max ==>
               data[list[i]].cell.version <= data[best.value].cell.version)
  }

  lemma NewestOfAll(data: seq<Entry>, list: seq<Id>, k: Key, max: nat, p: nat, best: Option<Id>)
    requires Proper(data, list) && KeySorted(data, list) && Below(data, list, k) <= p <= |list|
    requires p < |list| ==> KeyOf(data, list[p]) != k
    requires NewestUpTo(data, list, k, max, p, best)
    ensures IsNewest(Contents(data, list), k, max, if best.None? then None else Some(data[best.value]))
  {
    var es := Contents(data, list);
    forall e | e in es && e.cell.key == k ensures exists i :: 0 <= i < p && i < |list| && data[list[i]] == e {
      var i :| 0 <= i < |es| && es[i] == e;
      if i >= p { RunOfKey(data, list, k, p, i); }
    }
    if best.Some? {
      var i :| 0 <= i < |list| && list[i] == best.value;
      assert es[i] == data[best.value];
    }
  }

  // ---------------------------------------------------------------- the memtable

  class MemTable {
    var data: seq<Entry>
    var fwd: seq<Tower>
    var level: nat
    var counter: nat
    ghost var lists: Lists

    ghost predicate Valid()
      reads this
    {
      Wf(data, fwd, lists, level)
    }

    /** Everything in the table: keys ascending, of equal keys the latest insertion first. */
    ghost function All(): Run
      reads this
      requires Valid()
    {
      assert ListOk(data, fwd, lists, 0);
      Contents(data, lists[0])
    }

    constructor ()
      ensures Valid() && All() == [] && counter == 0
    {
      data, fwd, level, counter := [Entry(Cell([], 0), Payload([], false, 0))], [NO_POINTERS], 1, 0;
      lists := seq(TOWER, _ => []);
    }

    /** Walks one level from `curr`, the node at place `p`, to the last node with a smaller key. */
    method WalkLevel(i: nat, curr: Id, ghost p: nat, k: Key) returns (u: Id)
      requires Valid() && i < TOWER && p <= Below(data, lists[i], k) && curr == At(lists[i], p)
      ensures u == At(lists[i], Below(data, lists[i], k))
    {
      assert ListOk(data, fwd, lists, i);
      ghost var q := p;
      u := curr;
      var next := fwd[u][i];
      while next.Some? && Lt(data[next.value].cell.key, k)
        invariant q <= Below(data, lists[i], k) && u == At(lists[i], q) && next == NextAt(lists[i], q)
        decreases |lists[i]| - q
      {
        BelowSplits(data, lists[i], k, q);
        u := next.value;
        q := q + 1;
        assert fwd[At(lists[i], q)][i] == NextAt(lists[i], q);
        next := fwd[u][i];
      }
      if q < |lists[i]| { BelowSplits(data, lists[i], k, q); }
    }

    /** The last node with a smaller key in every level in use. */
    method Predecessors(k: Key) returns (update: seq<Id>)
      requires Valid()
      ensures |update| == level
      ensures forall i :: 0 <= i < level ==> update[i] == At(lists[i], Below(data, lists[i], k))
    {
      update := seq(level, _ => HEAD);
      var curr, i := HEAD, level;
      ghost var p: nat := 0;
      while i > 0
        invariant 0 <= i <= level && |update| == level
        invariant i > 0 ==> p <= Below(data, lists[i - 1], k) && curr == At(lists[i - 1], p)
        invariant forall j :: i <= j < level ==> update[j] == At(lists[j], Below(data, lists[j], k))
      {
        i := i - 1;
        curr := WalkLevel(i, curr, p, k);
        update := update[i := curr];
        if i > 0 { p := Descend(data, fwd, lists, level, i, k); }
      }
    }

    /** Links node `n` into level `i` behind `u`, with one store to a public pointer. */
    method Link(n: Id, i: nat, u: Id, ghost before: Lists)
      requires Valid() && i < level && 0 < n < |data| && n !in lists[i]
          && u == At(lists[i], Below(data, lists[i], KeyOf(data, n)))
      requires LinkedTo(data, before, lists, n, i) && AllSorted(data, before) && Nested(before)
      modifies this`fwd, this`lists
      ensures Valid() && LinkedTo(data, before, lists, n, i + 1)
      ensures lists == old(lists)[i := Put(data, old(lists)[i], n)]
    {
      ghost var b := Below(data, lists[i], KeyOf(data, n));
      assert ListOk(data, fwd, lists, i) && fwd[u][i] == NextAt(lists[i], b);
      PrivateStore(data, fwd, lists, level, n, i, fwd[u][i]);
      fwd := Point(fwd, n, i, fwd[u][i]);
      LinkKeeps(data, fwd, before, lists, level, n, i, b, lists[i := Put(data, lists[i], n)]);
      fwd := Point(fwd, u, i, Some(n));
      lists := lists[i := Put(data, lists[i], n)];
    }

    method PutVersion(k: Key, p: Payload, version: nat, lvl: nat)
      requires Valid() && 1 <= lvl <= TOWER
      modifies this
      ensures Valid()
      ensures var v := if version == 0 then old(counter) + 1 else version;
              All() == PutFront(old(All()), Entry(Cell(k, v), p)) && counter ==
                  if v > old(counter) then v else old(counter)
    {
      var v := if version == 0 then counter + 1 else version;
      if v > counter { counter := v; }
      var update := Predecessors(k);
      if lvl > level {
        GrowLevel(data, fwd, lists, level, lvl, k);
        update := update + seq(lvl - level, _ => HEAD);
        level := lvl;
      }
      var e, n := Entry(Cell(k, v), p), |data|;
      NewNode(data, fwd, lists, level, e, k);
      data, fwd := data + [e], fwd + [NO_POINTERS];
      assert KeyOf(data, n) == k;
      ghost var before := lists;
      for i := 0 to lvl
        invariant Valid() && lvl <= level && data == old(data) + [e] && LinkedTo(data, before, lists, n, i)
        invariant AllSorted(data, before) && Nested(before)
        invariant |update| >= lvl
        invariant forall j :: 0 <= j < lvl ==> n !in before[j] && update[j] == At(before[j], Below(data, before[j], k))
        invariant counter == if v > old(counter) then v else old(counter)
      {
        Link(n, i, update[i], before);
      }
      assert lists[0] == Put(data, before[0], n);
      PutContents(data, before[0], n);
    }

    /** The newest version up to `max`, found by a search from the top level down. */
    method GetByVersion(k: Key, max: nat) returns (r: Option<Entry>)
      requires Valid()
      ensures IsNewest(All(), k, max, r)
    {
      var update := Predecessors(k);
      ghost var list := lists[0];
      assert ListOk(data, fwd, lists, 0);
      ghost var q := Below(data, list, k);
      var best: Option<Id> := None;
      var next := fwd[update[0]][0];
      SmallerKeys(data, list, k);
      while next.Some? && data[next.value].cell.key == k
        invariant Below(data, list, k) <= q <= |list| && next == NextAt(list, q)
        invariant NewestUpTo(data, list, k, max, q, best)
        decreases |list| - q
      {
        if data[next.value].cell.version <= max {
          if best.None? || data[next.value].cell.version > data[best.value].cell.version { best := next; }
        }
        q := q + 1;
        assert fwd[At(list, q)][0] == NextAt(list, q);
        next := fwd[next.value][0];
      }
      NewestOfAll(data, list, k, max, q, best);
      return if best.None? then None else Some(data[best.value]);
    }
  }

  lemma SmallerKeys(data: seq<Entry>, list: seq<Id>, k: Key)
    requires Within(data, list) && KeySorted(data, list)
    ensures forall i :: 0 <= i < Below(data, list, k) ==> KeyOf(data, list[i]) != k
  {
    forall i | 0 <= i < Below(data, list, k) ensures KeyOf(data, list[i]) != k {
      BelowSplits(data, list, k, i);
      LtIrreflexive(k);
    }
  }

  /** A store to a pointer of a node that is not yet in that level shows nowhere. */
  lemma PrivateStore(data: seq<Entry>, fwd: seq<Tower>, lists: Lists, level: nat, n: Id, i: nat, to: Option<Id>)
    requires Wf(data, fwd, lists, level) && i < TOWER && 0 < n < |data| && n !in lists[i]
    ensures Wf(data, Point(fwd, n, i, to), lists, level)
  {
    forall j | 0 <= j < TOWER ensures ListOk(data, Point(fwd, n, i, to), lists, j) {
      assert ListOk(data, fwd, lists, j);
      PointKeeps(fwd, n, i, to, lists[j], j);
    }
  }

  lemma GrowLevel(data: seq<Entry>, fwd: seq<Tower>, lists: Lists, level: nat, lvl: nat, k: Key)
    requires Wf(data, fwd, lists, level) && level < lvl <= TOWER
    ensures Wf(data, fwd, lists, lvl)
    ensures forall i :: level <= i < lvl ==> HEAD == At(lists[i], Below(data, lists[i], k))
  {}

  lemma NewNode(data: seq<Entry>, fwd: seq<Tower>, lists: Lists, level: nat, e: Entry, k: Key)
    requires Wf(data, fwd, lists, level)
    ensures Wf(data + [e], fwd + [NO_POINTERS], lists, level) && AllSorted(data + [e], lists) && Nested(lists)
    ensures forall i :: 0 <= i < TOWER ==> |data| !in lists[i] && Within(data, lists[i])
    ensures forall i :: 0 <= i < TOWER ==> Below(data + [e], lists[i], k) == Below(data, lists[i], k)
    ensures Within(data, lists[0]) && Within(data + [e], lists[0]) && |data| > 0
    ensures Contents(data + [e], lists[0]) == Contents(data, lists[0])
  {
    AppendKeeps(data, fwd, lists, level, e, NO_POINTERS);
    assert ListOk(data, fwd, lists, 0);
    forall i | 0 <= i < TOWER
      ensures |data| !in lists[i] && Within(data, lists[i])
          && Below(data + [e], lists[i], k) == Below(data, lists[i], k)
      ensures KeySorted(data + [e], lists[i])
    {
      assert ListOk(data, fwd, lists, i) && ListOk(data + [e], fwd + [NO_POINTERS], lists, i);
      BelowAppend(data, e, lists[i], k);
    }
  }
}
