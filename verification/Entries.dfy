/** Runs of stored versions, as memtables, tables and iterators hold them. */
module Entries {
  import opened Store
  import opened ByteOrder

  datatype Entry = Entry(cell: Cell, payload: Payload)

  type Run = seq<Entry>

  /** Strictly in storage order, so each version occurs once. */
  ghost predicate Sorted(es: Run) {
    forall i, j :: 0 <= i < j < |es| ==> Before(es[i].cell, es[j].cell)
  }

  ghost predicate Distinct(es: Run) {
    forall i, j :: 0 <= i < j < |es| ==> es[i].cell != es[j].cell
  }

  lemma SortedDistinct(es: Run)
    requires Sorted(es)
    ensures Distinct(es)
  {
    forall i, j | 0 <= i < j < |es| ensures es[i].cell != es[j].cell {
      assert Before(es[i].cell, es[j].cell);
      BeforeIrreflexive(es[i].cell);
    }
  }

  ghost function Cells(es: Run): set<Cell> {
    set e | e in es :: e.cell
  }

  ghost predicate Single(es: Run) {
    forall e, f :: e in es && f in es && e.cell == f.cell ==> e == f
  }

  lemma DistinctSingle(es: Run)
    requires Distinct(es)
    ensures Single(es)
  {
    forall e, f | e in es && f in es && e.cell == f.cell ensures e == f {
      var i :| 0 <= i < |es| && es[i] == e;
      var j :| 0 <= j < |es| && es[j] == f;
    }
  }

  /** The versions of a run as a map. */
  ghost function AsMap(es: Run): (m: map<Cell, Payload>)
    requires Single(es)
    ensures forall e :: e in es ==> e.cell in m && m[e.cell] == e.payload
    ensures forall c :: c in m ==> Entry(c, m[c]) in es
  {
    map e | e in es :: e.cell := e.payload
  }

  ghost function RunMap(es: Run): map<Cell, Payload>
    requires Sorted(es)
  {
    SortedDistinct(es);
    DistinctSingle(es);
    AsMap(es)
  }

  // ---------------------------------------------------------------- memtable order

  /** `es` with `e` put in front of the first entry whose key is not smaller. */
  function PutFront(es: Run, e: Entry): Run {
    if es != [] && Lt(es[0].cell.key, e.cell.key) then [es[0]] + PutFront(es[1..], e) else [e] + es
  }

  lemma {:induction false} PutFrontMembers(es: Run, e: Entry, d: Entry)
    ensures d in PutFront(es, e) <==> d == e || d in es
  {
    if es != [] && Lt(es[0].cell.key, e.cell.key) {
      assert es == [es[0]] + es[1..];
      PutFrontMembers(es[1..], e, d);
    }
  }

  /** Newer versions go in front, so versions that come in increasing order keep the run sorted. */
  lemma {:induction false} PutFrontSorted(es: Run, e: Entry)
    requires Sorted(es) && forall d :: d in es && d.cell.key == e.cell.key ==> d.cell.version < e.cell.version
    ensures Sorted(PutFront(es, e))
  {
    var out := PutFront(es, e);
    if es == [] {
    } else if Lt(es[0].cell.key, e.cell.key) {
      PutFrontSorted(es[1..], e);
      var tail := PutFront(es[1..], e);
      forall j | 0 < j < |out| ensures Before(out[0].cell, out[j].cell) {
        assert out[j] == tail[j - 1];
        PutFrontMembers(es[1..], e, out[j]);
        if out[j] != e {
          var m :| 0 <= m < |es[1..]| && es[1..][m] == out[j];
          assert out[j] == es[m + 1];
        }
      }
      assert forall i, j :: 0 < i < j < |out| ==> out[i] == tail[i - 1] && out[j] == tail[j - 1];
    } else {
      LtTotal(es[0].cell.key, e.cell.key);
      assert es[0] in es && Before(e.cell, es[0].cell);
      forall j | 0 < j < |out| ensures Before(out[0].cell, out[j].cell) {
        assert out[j] == es[j - 1];
        if j > 1 { BeforeTrans(e.cell, es[0].cell, es[j - 1].cell); }
      }
      assert forall i, j :: 0 < i < j < |out| ==> out[i] == es[i - 1] && out[j] == es[j - 1];
    }
  }
}
