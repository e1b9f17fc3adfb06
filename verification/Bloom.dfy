/** The Bloom filters of a table, over a hash that is left open. */
module Bloom {
  import opened Store

  const TWO32 := 0x1_0000_0000

  /** Reduces `x` to a bit number. */
  function Reduce(x: nat, bits: nat): (p: nat)
    requires bits > 0
    ensures p < bits
  {
    if x < bits then x else Reduce(x - bits, bits)
  }

  function Times(i: nat, n: nat): nat {
    if i == 0 then 0 else Times(i - 1, n) + n
  }

  /** `Reduce` is the remainder: what is left after taking `bits` away as often as possible. */
  lemma {:induction false} ReduceIsRemainder(x: nat, bits: nat) returns (q: nat)
    requires bits > 0
    ensures x == Times(q, bits) + Reduce(x, bits)
  {
    q := 0;
    if x >= bits {
      q := ReduceIsRemainder(x - bits, bits);
      q := q + 1;
    }
  }

  /** The `i`-th probe of a 64-bit hash, with 32-bit wrap-around. */
  function Probe(hash: nat, i: nat, bits: nat): (p: nat)
    requires bits > 0
    ensures p < bits
  {
    var h1, h2 := hash % TWO32, hash / TWO32 % TWO32;
    var odd := if h2 % 2 == 0 then h2 + 1 else h2;
    Reduce((h1 + Times(i, odd)) % TWO32, bits)
  }

  class Filter {
    const bits: nat
    const k: nat
    const data: array<bool>
    ghost var added: set<Bytes>

    /** All probes of `key` are set. */
    ghost predicate Marked(h: Bytes -> nat, key: Bytes)
      reads this, data
    {
      data.Length == bits && (bits > 0 ==> forall i :: 0 <= i < k ==> data[Probe(h(key), i, bits)])
    }

    ghost predicate Valid(h: Bytes -> nat)
      reads this, data
    {
      data.Length == bits && forall key :: key in added ==> Marked(h, key)
    }

    constructor (n: nat, bitsPerKey: int, probes: nat, ghost h: Bytes -> nat)
      ensures Valid(h) && added == {} && fresh(data) && k == probes
    {
      var perKey: nat := if bitsPerKey < 1 then 10 else bitsPerKey;
      var raw := (if n == 0 then 1 else n) * perKey % TWO32;
      var wanted := if raw < 64 then 64 else raw;
      var len := (wanted + 7) % TWO32 / 8;
      bits := len * 8;
      k := probes;
      data := new bool[len * 8](_ => false);
      added := {};
    }

    /** Sets the probes of one more key; nothing that was added is lost. */
    method Add(h: Bytes -> nat, key: Bytes)
      requires Valid(h)
      modifies this`added, data
      ensures Valid(h) && added == old(added) + {key}
    {
      if bits > 0 {
        var hash := h(key);
        for i := 0 to k
          invariant added == old(added)
          invariant forall b :: 0 <= b < bits && old(data[b]) ==> data[b]
          invariant forall j :: 0 <= j < i ==> data[Probe(hash, j, bits)]
        {
          data[Probe(hash, i, bits)] := true;
        }
      }
      added := added + {key};
    }

    /** No key that was added is ever denied. */
    method MayContain(h: Bytes -> nat, key: Bytes) returns (r: bool)
      requires Valid(h)
      ensures r <==> Marked(h, key)
      ensures key in added ==> r
    {
      if bits == 0 { return true; }
      var hash := h(key);
      for i := 0 to k
        invariant forall j :: 0 <= j < i ==> data[Probe(hash, j, bits)]
      {
        if !data[Probe(hash, i, bits)] { return false; }
      }
      return true;
    }
  }
}
