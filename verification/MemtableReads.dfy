/** The two steps that a get takes in a memtable are what a lookup in the skip list amounts to, pointer
    load by pointer load beside a writer. */
module MemtableReads {
  import opened Store
  import opened ByteOrder
  import opened Entries
  import opened SkipList
  import SR = SkipListReaders
  import P = ReadPath

  /** The key of the node where a search has ended, none for the head. */
  ghost function KeyAt(w: SR.World, curr: Id): Option<Key> {
    if curr == HEAD then None else Some(SR.Key(w, curr))
  }

  /** The versions that level 0 holds. */
  ghost predicate Holds(w: SR.World, m: map<Cell, Payload>) {
    && Within(w.data, w.lists[0]) && Single(Contents(w.data, w.lists[0]))
    && m == AsMap(Contents(w.data, w.lists[0]))
  }

  lemma NodeInMap(w: SR.World, m: map<Cell, Payload>, n: Id)
    requires Holds(w, m) && n in w.lists[0]
    ensures n < |w.data| && w.data[n].cell in m && SR.Key(w, n) == w.data[n].cell.key
  {
    var i :| 0 <= i < |w.lists[0]| && w.lists[0][i] == n;
    assert Contents(w.data, w.lists[0])[i] == w.data[n];
  }

  lemma MapInNode(w: SR.World, m: map<Cell, Payload>, c: Cell) returns (n: Id)
    requires Holds(w, m) && c in m
    ensures n in w.lists[0] && n < |w.data| && w.data[n].cell == c && SR.Key(w, n) == c.key
  {
    var es := Contents(w.data, w.lists[0]);
    var i :| 0 <= i < |es| && es[i] == Entry(c, m[c]);
    n := w.lists[0][i];
  }

  /** A node between the end of the search and the key is a key between them. */
  lemma BetweenIsPassed(w: SR.World, m: map<Cell, Payload>, curr: Id, k: Key)
    requires Holds(w, m)
    ensures SR.SomeBetween(w, curr, k) <==> P.Passed(m, k, KeyAt(w, curr))
  {
    if SR.SomeBetween(w, curr, k) {
      var n :| n in w.lists[0] && SR.Between(w, curr, n, k);
      NodeInMap(w, m, n);
      assert w.data[n].cell in m;
    }
    if P.Passed(m, k, KeyAt(w, curr)) {
      var c :| c in m && Lt(c.key, k) && (KeyAt(w, curr).None? || Lt(KeyAt(w, curr).value, c.key));
      var n := MapInNode(w, m, c);
      assert SR.Between(w, curr, n, k);
    }
  }

  /** When a search ends it stands at the last smaller key. */
  lemma SearchEnds(ws: seq<SR.World>, rs: seq<SR.Reader>, steps: seq<SR.Step>, k: Key, max: nat, i: nat,
      m: map<Cell, Payload>)
    requires SR.Run(ws, rs, steps, k, max) && i < |ws| && rs[i].Reload? && !rs[i].passed && Holds(ws[i], m)
    ensures P.IsPred(m, k, KeyAt(ws[i], rs[i].curr))
  {
    SR.RunOnTrack(ws, rs, steps, k, max, i);
    BetweenIsPassed(ws[i], m, rs[i].curr, k);
    if rs[i].curr != HEAD {
      NodeInMap(ws[i], m, rs[i].curr);
      assert ws[i].data[rs[i].curr].cell in m;
    }
  }

  lemma {:induction false} DataStays(ws: seq<SR.World>, rs: seq<SR.Reader>, steps: seq<SR.Step>, k: Key, max: nat,
      i: nat, j: nat)
    requires SR.Run(ws, rs, steps, k, max) && i <= j < |ws|
    ensures ws[i].data <= ws[j].data
    decreases j
  {
    if i < j {
      DataStays(ws, rs, steps, k, max, i, j - 1);
      assert SR.CanStep(ws[j - 1], steps[j - 1]);
      assert SR.Steps(ws[j - 1], rs[j - 1], steps[j - 1], ws[j], rs[j], k, max);
    }
  }

  lemma NewestIsLookup(es: Run, k: Key, max: nat, best: Option<Entry>)
    requires Single(es) && IsNewest(es, k, max, best)
    ensures Lookup(AsMap(es), k, max) == if best.None? then None else Some(best.value.payload)
  {
    var m := AsMap(es);
    var v := Newest(m, k, max);
    if v.Some? { assert Entry(Cell(k, v.value), m[Cell(k, v.value)]) in es; }
    if best.Some? { assert best.value.cell in m && best.value.cell == Cell(k, best.value.cell.version); }
  }

  /** What the lookup finds is what the get finds in the memtable as it is when the candidate is loaded. */
  lemma LookupIsFinds(ws: seq<SR.World>, rs: seq<SR.Reader>, steps: seq<SR.Step>, k: Key, max: nat, j: nat, n: nat,
      m: map<Cell, Payload>)
    requires SR.Run(ws, rs, steps, k, max) && j < n < |ws| && rs[j].Reload? && steps[j].Reads? && rs[n].Done?
    requires Holds(ws[j], m)
    ensures var found := SR.EntryOf(ws[n], rs[n].best);
            P.MemFinds(m, k, max, KeyAt(ws[j], rs[j].curr)) == if found.None? then None else Some(found.value.payload)
  {
    SR.LookupFinds(ws, rs, steps, k, max, j, n);
    BetweenIsPassed(ws[j], m, rs[j].curr, k);
    DataStays(ws, rs, steps, k, max, j, n);
    var es := Contents(ws[j].data, ws[j].lists[0]);
    assert Contents(ws[n].data, ws[j].lists[0]) == es;
    if !SR.SomeBetween(ws[j], rs[j].curr, k) { NewestIsLookup(es, k, max, SR.EntryOf(ws[n], rs[n].best)); }
  }
}
