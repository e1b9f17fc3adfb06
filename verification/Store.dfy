/** The vocabulary every other module shares: byte strings, versioned cells and
    what a reader observes of a stored payload. */
module Store {

  type Byte = b: int | 0 <= b < 256
  type Bytes = seq<Byte>
  type Key = Bytes

  datatype Option<+T> = None | Some(value: T)

  /** One version of one key. */
  datatype Cell = Cell(key: Key, version: nat)

  /** What is stored under a cell; `expiresAt <= 0` means "never expires". */
  datatype Payload = Payload(value: Bytes, deleted: bool, expiresAt: int)

  predicate Expired(p: Payload, now: int) {
    p.expiresAt > 0 && now >= p.expiresAt
  }

  /** A tombstone and an expired value look the same to every reader. */
  predicate Dead(p: Payload, now: int) {
    p.deleted || Expired(p, now)
  }

  function Observe(p: Payload, now: int): Option<Bytes> {
    if Dead(p, now) then None else Some(p.value)
  }

  function ObserveCell(r: Option<Payload>, now: int): Option<Bytes> {
    if r.None? then None else Observe(r.value, now)
  }

  /** The newest version of `k` in `cells` stamped at most `ts`. */
  ghost function Newest(cells: map<Cell, Payload>, k: Key, ts: nat): (r: Option<nat>)
    ensures r.Some? ==> r.value <= ts && Cell(k, r.value) in cells
    ensures forall v: nat :: v <= ts && Cell(k, v) in cells ==> r.Some? && v <= r.value
  {
    if Cell(k, ts) in cells then Some(ts)
    else if ts == 0 then None
    else Newest(cells, k, ts - 1)
  }

  ghost function Lookup(cells: map<Cell, Payload>, k: Key, ts: nat): Option<Payload> {
    var v := Newest(cells, k, ts);
    if v.None? then None else Some(cells[Cell(k, v.value)])
  }

  /** Both stores hold the same under `c`. */
  ghost predicate Same(a: map<Cell, Payload>, b: map<Cell, Payload>, c: Cell) {
    (c in a <==> c in b) && (c in a ==> a[c] == b[c])
  }

  /** Stores that agree on the versions a lookup may see answer it alike. */
  lemma {:induction false} LookupAgrees(a: map<Cell, Payload>, b: map<Cell, Payload>, k: Key, ts: nat)
    requires forall v: nat :: v <= ts ==> Same(a, b, Cell(k, v))
    ensures Newest(a, k, ts) == Newest(b, k, ts) && Lookup(a, k, ts) == Lookup(b, k, ts)
  {
    assert Same(a, b, Cell(k, ts));
    if ts > 0 { LookupAgrees(a, b, k, ts - 1); }
  }
}
