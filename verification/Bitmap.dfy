/** Bitmaps kept as pages of bytes, against an unbounded array of bits. */
module Bitmap {
  import opened Store
  import opened ByteOrder
  import opened Encoding

  const PAGE_BYTES := 4096
  const PAGE_BITS := 8 * 4096
  /** Pages and bytes that offsets below 2^63 can reach. */
  const PAGES := 0x1_0000_0000_0000
  const REACH := 0x1000_0000_0000_0000

  type Page = seq<bv8>
  type Kv = map<Key, Page>

  function PagePrefix(name: Bytes): Key {
    [98, 0] + name + [0]
  }

  function PageKey(name: Bytes, page: nat): Key {
    PagePrefix(name) + BigEndian(page, 8)
  }

  /** Page numbers have a fixed width, so this is of all names. */
  lemma PageKeysDiffer(a: Bytes, p: nat, b: Bytes, q: nat)
    requires p < PAGES && q < PAGES && PageKey(a, p) == PageKey(b, q)
    ensures a == b && p == q
  {
    var n := |a|;
    assert |b| == n;
    assert a == PageKey(a, p)[2..n + 2] && b == PageKey(b, q)[2..n + 2];
    assert BigEndian(p, 8) == PageKey(a, p)[n + 3..] && BigEndian(q, 8) == PageKey(b, q)[n + 3..];
    Widths();
    BigEndianRound(p, 8);
    BigEndianRound(q, 8);
  }

  // ---------------------------------------------------------------- counting

  /** How many of the bits from `lo` to `hi` are set; there is nothing past the end. */
  ghost function Count(bits: seq<bool>, lo: nat, hi: int): nat
    decreases hi - lo + 1
  {
    if hi < lo then 0 else Count(bits, lo, hi - 1) + if hi < |bits| && bits[hi] then 1 else 0
  }

  lemma {:induction false} CountSplit(bits: seq<bool>, lo: nat, mid: int, hi: int)
    requires lo <= mid + 1 && mid <= hi
    ensures Count(bits, lo, hi) == Count(bits, lo, mid) + Count(bits, mid + 1, hi)
    decreases hi - mid
  {
    if mid < hi { CountSplit(bits, lo, mid, hi - 1); }
  }

  lemma {:induction false} PastTheEnd(bits: seq<bool>, lo: nat, hi: int)
    requires lo >= |bits|
    ensures Count(bits, lo, hi) == 0
    decreases hi - lo + 1
  {
    if lo <= hi { PastTheEnd(bits, lo, hi - 1); }
  }

  lemma CountClip(bits: seq<bool>, lo: nat, hi: int)
    requires hi >= |bits| - 1
    ensures Count(bits, lo, hi) == Count(bits, lo, |bits| - 1)
  {
    if lo < |bits| {
      CountSplit(bits, lo, |bits| - 1, hi);
      PastTheEnd(bits, |bits|, hi);
    } else {
      PastTheEnd(bits, lo, hi);
    }
  }

  /** `part` holds the bits from `base + lo` to `base + hi`, and nothing else. */
  ghost predicate Keeps(part: seq<bool>, bits: seq<bool>, base: nat, lo: nat, hi: nat) {
    && base + |part| <= |bits|
    && forall i :: 0 <= i < |part| ==> (part[i] <==> bits[base + i] && lo <= i <= hi)
  }

  lemma {:induction false} KeptCount(part: seq<bool>, bits: seq<bool>, base: nat, lo: nat, hi: nat, n: nat)
    requires Keeps(part, bits, base, lo, hi) && lo <= hi < |part| && n <= |part|
    ensures Count(part, 0, n - 1) == Count(bits, base + lo, base + (if n <= hi then n - 1 else hi))
  {
    if n > 0 { KeptCount(part, bits, base, lo, hi, n - 1); }
  }

  // ---------------------------------------------------------------- bits of a byte

  /** Bit `i` of a byte, the most significant first. */
  predicate BitOf(b: bv8, i: nat)
    requires i < 8
  {
    (b >> (7 - i)) & 1 == 1
  }

  /** The first bit of a byte counts 128, the last one counts 1. */
  lemma BitWeights(i: nat)
    requires i < 8
    ensures (BitOf(128, i) <==> i == 0) && (BitOf(64, i) <==> i == 1) && (BitOf(1, i) <==> i == 7)
  {}

  /** The eight bits of `bits` from `base` on are those of a byte. */
  ghost predicate Spells(bits: seq<bool>, base: nat, b: bv8) {
    base + 8 <= |bits| && forall i :: 0 <= i < 8 ==> bits[base + i] == BitOf(b, i)
  }

  /** The number of set bits of a byte. */
  method OnesCount(b: bv8, ghost bits: seq<bool>) returns (n: nat)
    requires Spells(bits, 0, b)
    ensures n == Count(bits, 0, 7)
  {
    n := 0;
    for i: int := 0 to 8
      invariant n == Count(bits, 0, i - 1)
    {
      var on := BitOf(b, i);
      assert on == bits[0 + i];
      if on { n := n + 1; }
    }
  }

  /** Keeps the bits from `lo` on. */
  function LowMask(lo: nat): bv8
    requires lo < 8
  {
    (1 << (8 - lo)) - 1
  }

  /** Keeps the bits up to `hi`. */
  function HighMask(hi: nat): bv8
    requires hi < 8
  {
    0xFF << (7 - hi)
  }

  lemma LowMaskBit(b: bv8, lo: nat, i: nat)
    requires lo < 8 && i < 8
    ensures BitOf(b & LowMask(lo), i) <==> BitOf(b, i) && lo <= i
  {}

  lemma HighMaskBit(b: bv8, hi: nat, i: nat)
    requires hi < 8 && i < 8
    ensures BitOf(b & HighMask(hi), i) <==> BitOf(b, i) && i <= hi
  {}

  /** Setting and clearing a bit changes that bit and no other. */
  lemma SetOne(b: bv8, k: nat, i: nat)
    requires k < 8 && i < 8
    ensures BitOf(b | (1 << (7 - k)), i) <==> BitOf(b, i) || i == k
  {}

  lemma ClearOne(b: bv8, k: nat, i: nat)
    requires k < 8 && i < 8
    ensures BitOf(b & !(1 << (7 - k)), i) <==> BitOf(b, i) && i != k
  {}

  lemma NoBits(i: nat)
    requires i < 8
    ensures !BitOf(0, i)
  {}

  // ---------------------------------------------------------------- bits of a page and of a bitmap

  predicate BitAt(data: Page, j: nat) {
    j / 8 < |data| && BitOf(data[j / 8], j % 8)
  }

  /** `bits` are the bits of a page. */
  ghost predicate Flattens(bits: seq<bool>, data: Page) {
    |bits| == 8 * |data| && forall b :: 0 <= b < |data| ==> Spells(bits, 8 * b, data[b])
  }

  function PageOf(kv: Kv, name: Bytes, page: nat): Page {
    if PageKey(name, page) in kv then kv[PageKey(name, page)] else []
  }

  /** Bit `i` of the bitmap. */
  predicate Bit(kv: Kv, name: Bytes, i: int) {
    0 <= i < TWO63 && BitAt(PageOf(kv, name, i / PAGE_BITS), i % PAGE_BITS)
  }

  /** The positions of the set bits. */
  ghost function On(kv: Kv, name: Bytes): iset<int> {
    iset i | Bit(kv, name, i)
  }

  /** What lies under the prefix of a bitmap is its pages. */
  ghost predicate PageAt(kv: Kv, name: Bytes, k: Key) {
    k in kv && PagePrefix(name) <= k ==>
      |k| == |PagePrefix(name)| + 8 && FromBigEndian(k[|PagePrefix(name)|..]) < PAGES && |kv[k]| <= PAGE_BYTES
  }

  ghost predicate Paged(kv: Kv, name: Bytes) {
    forall k :: PageAt(kv, name, k)
  }

  // ---------------------------------------------------------------- counting in one page

  /** `part` is byte `m`, which holds the bits of byte `base` from `lo` to `hi`. */
  ghost predicate Cut(part: seq<bool>, m: bv8, b: bv8, lo: nat, hi: nat) {
    |part| == 8 && Spells(part, 0, m) && forall i :: 0 <= i < 8 ==> (BitOf(m, i) <==> BitOf(b, i) && lo <= i <= hi)
  }

  lemma CutKeeps(part: seq<bool>, bits: seq<bool>, base: nat, m: bv8, b: bv8, lo: nat, hi: nat)
    requires Spells(bits, base, b) && Cut(part, m, b, lo, hi)
    ensures Keeps(part, bits, base, lo, hi)
  {
    forall i | 0 <= i < 8 ensures part[i] <==> bits[base + i] && lo <= i <= hi { assert part[0 + i] == BitOf(m, i); }
  }

  method CountByte(m: bv8, ghost part: seq<bool>, ghost bits: seq<bool>, ghost base: nat, ghost b: bv8, ghost lo: nat,
      ghost hi: nat)
    returns (count: nat)
    requires lo <= hi < 8 && Spells(bits, base, b) && Cut(part, m, b, lo, hi)
    ensures count == Count(bits, base + lo, base + hi)
  {
    CutKeeps(part, bits, base, m, b, lo, hi);
    KeptCount(part, bits, base, lo, hi, 8);
    count := OnesCount(m, part);
  }

  ghost function Spelled(m: bv8): (part: seq<bool>)
    ensures |part| == 8 && Spells(part, 0, m)
  {
    seq(8, i requires 0 <= i < 8 => BitOf(m, i))
  }

  lemma LowCut(b: bv8, lo: nat)
    requires lo < 8
    ensures Cut(Spelled(b & LowMask(lo)), b & LowMask(lo), b, lo, 7)
  {
    forall i | 0 <= i < 8 ensures BitOf(b & LowMask(lo), i) <==> BitOf(b, i) && lo <= i { LowMaskBit(b, lo, i); }
  }

  lemma HighCut(b: bv8, hi: nat)
    requires hi < 8
    ensures Cut(Spelled(b & HighMask(hi)), b & HighMask(hi), b, 0, hi)
  {
    forall i | 0 <= i < 8 ensures BitOf(b & HighMask(hi), i) <==> BitOf(b, i) && i <= hi { HighMaskBit(b, hi, i); }
  }

  lemma TwoCuts(part: seq<bool>, m: bv8, part': seq<bool>, l: bv8, b: bv8, lo: nat, hi: nat)
    requires lo <= hi < 8 && Cut(part', l, b, lo, 7) && Cut(part, m, l, 0, hi)
    ensures Cut(part, m, b, lo, hi)
  {}

  /** Counts the set bits of a page from `lo` to `hi`: whole bytes between two masked ones. */
  method CountBitsInRange(data: Page, lo: int, hi: int, ghost bits: seq<bool>) returns (count: nat)
    requires Flattens(bits, data)
    ensures count == if lo < 0 then 0 else Count(bits, lo, hi)
  {
    if lo < 0 || hi < lo || |data| == 0 {
      if lo >= 0 && |data| == 0 { PastTheEnd(bits, lo, hi); }
      return 0;
    }
    var maxBit := |data| * 8 - 1;
    var top := hi;
    if top > maxBit {
      CountClip(bits, lo, hi);
      top := maxBit;
    }
    if lo > maxBit { return 0; }
    count := CountBytes(data, lo / 8, lo % 8, top / 8, top % 8, bits);
  }

  method CountBytes(data: Page, first: nat, l: nat, last: nat, h: nat, ghost bits: seq<bool>) returns (count: nat)
    requires Flattens(bits, data) && first <= last < |data| && l < 8 && h < 8 && (first == last ==> l <= h)
    ensures count == Count(bits, 8 * first + l, 8 * last + h)
  {
    if first == last {
      count := InByte(data[first], l, h, bits, 8 * first);
      return;
    }
    var head := FromBit(data[first], l, bits, 8 * first);
    var middle := MiddleBits(data, first + 1, last, bits);
    var tail := UpToBit(data[last], h, bits, 8 * last);
    ThreeParts(bits, 8 * first + l, 8 * first + 7, 8 * last - 1, 8 * last + h);
    count := head + middle + tail;
  }

  lemma ThreeParts(bits: seq<bool>, lo: nat, a: nat, b: nat, hi: nat)
    requires lo <= a <= b < hi + 1
    ensures Count(bits, lo, hi) == Count(bits, lo, a) + Count(bits, a + 1, b) + Count(bits, b + 1, hi)
  {
    CountSplit(bits, lo, a, b);
    CountSplit(bits, lo, b, hi);
  }

  method InByte(b: bv8, lo: nat, hi: nat, ghost bits: seq<bool>, ghost base: nat) returns (count: nat)
    requires lo <= hi < 8 && Spells(bits, base, b)
    ensures count == Count(bits, base + lo, base + hi)
  {
    var l := b & LowMask(lo);
    var m := l & HighMask(hi);
    LowCut(b, lo);
    HighCut(l, hi);
    TwoCuts(Spelled(m), m, Spelled(l), l, b, lo, hi);
    count := CountByte(m, Spelled(m), bits, base, b, lo, hi);
  }

  method FromBit(b: bv8, lo: nat, ghost bits: seq<bool>, ghost base: nat) returns (count: nat)
    requires lo < 8 && Spells(bits, base, b)
    ensures count == Count(bits, base + lo, base + 7)
  {
    var m := b & LowMask(lo);
    LowCut(b, lo);
    count := CountByte(m, Spelled(m), bits, base, b, lo, 7);
  }

  method UpToBit(b: bv8, hi: nat, ghost bits: seq<bool>, ghost base: nat) returns (count: nat)
    requires hi < 8 && Spells(bits, base, b)
    ensures count == Count(bits, base, base + hi)
  {
    var m := b & HighMask(hi);
    HighCut(b, hi);
    count := CountByte(m, Spelled(m), bits, base, b, 0, hi);
  }

  method MiddleBits(data: Page, first: nat, last: nat, ghost bits: seq<bool>) returns (count: nat)
    requires first <= last <= |data| && Flattens(bits, data)
    ensures count == Count(bits, 8 * first, 8 * last - 1)
  {
    count := 0;
    for b: int := first to last
      invariant count == Count(bits, 8 * first, 8 * b - 1)
    {
      var one := CountByte(data[b], Spelled(data[b]), bits, 8 * b, data[b], 0, 7);
      CountSplit(bits, 8 * first, 8 * b - 1, 8 * b + 7);
      count := count + one;
    }
  }

  // ---------------------------------------------------------------- setting a bit

  /** The page grown to hold byte `b`, with bit `k` of it set or cleared. */
  function Stored(data: Page, b: nat, k: nat, on: bool): (r: Page)
    requires k < 8
    ensures |r| == if b < |data| then |data| else b + 1
  {
    var grown := if b < |data| then data else data + seq(b + 1 - |data|, _ => 0);
    grown[b := if on then grown[b] | (1 << (7 - k)) else grown[b] & !(1 << (7 - k))]
  }

  lemma StoredBit(data: Page, b: nat, k: nat, on: bool, c: nat, i: nat)
    requires k < 8 && i < 8
    ensures c < |Stored(data, b, k, on)| && BitOf(Stored(data, b, k, on)[c], i) <==>
              if c == b && i == k then on else c < |data| && BitOf(data[c], i)
  {
    NoBits(i);
    if c == b {
      var was := if b < |data| then data[b] else 0;
      SetOne(was, k, i);
      ClearOne(was, k, i);
    }
  }

  lemma StoredAt(data: Page, j: nat, on: bool, i: nat)
    ensures BitAt(Stored(data, j / 8, j % 8, on), i) <==> if i == j then on else BitAt(data, i)
  {
    StoredBit(data, j / 8, j % 8, on, i / 8, i % 8);
  }

  lemma OtherPage(kv: Kv, name: Bytes, p: nat, data: Page, other: Bytes, q: nat)
    requires p < PAGES && q < PAGES
    ensures PageOf(kv[PageKey(name, p) := data], other, q) ==
        if other == name && q == p then data else PageOf(kv, other, q)
  {
    if PageKey(other, q) == PageKey(name, p) { PageKeysDiffer(other, q, name, p); }
  }

  lemma StoredOnPage(kv: Kv, name: Bytes, p: nat, j: nat, on: bool, kv': Kv, other: Bytes, q: nat, i: nat)
    requires p < PAGES && q < PAGES
    requires kv' == kv[PageKey(name, p) := Stored(PageOf(kv, name, p), j / 8, j % 8, on)]
    ensures BitAt(PageOf(kv', other, q), i) <==>
        if other == name && q == p && i == j then on else BitAt(PageOf(kv, other, q), i)
  {
    OtherPage(kv, name, p, Stored(PageOf(kv, name, p), j / 8, j % 8, on), other, q);
    StoredAt(PageOf(kv, name, p), j, on, i);
  }

  lemma StoredOn(kv: Kv, name: Bytes, offset: nat, on: bool, kv': Kv, other: Bytes, i: int)
    requires offset < TWO63
    requires var p, j := offset / PAGE_BITS, offset % PAGE_BITS;
             kv' == kv[PageKey(name, p) := Stored(PageOf(kv, name, p), j / 8, j % 8, on)]
    ensures Bit(kv', other, i) <==> if other == name && i == offset then on else Bit(kv, other, i)
  {
    if 0 <= i < TWO63 { StoredOnPage(kv, name, offset / PAGE_BITS, offset % PAGE_BITS, on, kv', other, i / PAGE_BITS,
        i % PAGE_BITS); }
  }

  lemma AfterPrefix(name: Bytes, k: Key)
    requires PagePrefix(name) <= k
    ensures k[2..] == name + [0] + k[|PagePrefix(name)|..]
  {
    var rest := k[|PagePrefix(name)|..];
    assert k == PagePrefix(name) + rest;
    assert k == [98, 0] + (name + [0] + rest);
  }

  lemma StoredPaged(kv: Kv, name: Bytes, p: nat, data: Page, other: Bytes)
    requires Unmixed(name, other) && p < PAGES && |data| <= PAGE_BYTES && Paged(kv, other)
    ensures Paged(kv[PageKey(name, p) := data], other)
  {
    var kv' := kv[PageKey(name, p) := data];
    forall k ensures PageAt(kv', other, k) {
      assert PageAt(kv, other, k);
      if k == PageKey(name, p) && PagePrefix(other) <= k {
        var n := |PagePrefix(other)|;
        AfterPrefix(other, k);
        AfterPrefix(name, k);
        NameEnds(other, k[n..], name, BigEndian(p, 8));
        Widths();
        BigEndianRound(p, 8);
      }
    }
  }

  // ---------------------------------------------------------------- counting over pages

  ghost function Span(on: iset<int>, lo: int, hi: int): nat
    decreases hi - lo + 1
  {
    if hi < lo then 0 else Span(on, lo, hi - 1) + if hi in on then 1 else 0
  }

  lemma {:induction false} SpanSame(a: iset<int>, b: iset<int>, lo: int, hi: int)
    requires forall i :: lo <= i <= hi ==> (i in a <==> i in b)
    ensures Span(a, lo, hi) == Span(b, lo, hi)
    decreases hi - lo + 1
  {
    if lo <= hi { SpanSame(a, b, lo, hi - 1); }
  }

  lemma {:induction false} SpanSum(a: iset<int>, b: iset<int>, c: iset<int>, lo: int, hi: int)
    requires forall i :: (i in c <==> i in a || i in b) && !(i in a && i in b)
    ensures Span(c, lo, hi) == Span(a, lo, hi) + Span(b, lo, hi)
    decreases hi - lo + 1
  {
    if lo <= hi { SpanSum(a, b, c, lo, hi - 1); }
  }

  lemma {:induction false} SpanNone(on: iset<int>, lo: int, hi: int)
    requires forall i :: lo <= i <= hi ==> i !in on
    ensures Span(on, lo, hi) == 0
    decreases hi - lo + 1
  {
    if lo <= hi { SpanNone(on, lo, hi - 1); }
  }

  lemma {:induction false} SpanSplit(on: iset<int>, lo: int, mid: int, hi: int)
    requires lo <= mid + 1 && mid <= hi
    ensures Span(on, lo, hi) == Span(on, lo, mid) + Span(on, mid + 1, hi)
    decreases hi - mid
  {
    if mid < hi { SpanSplit(on, lo, mid, hi - 1); }
  }

  /** Only the bounds inside `[from, to]` matter when nothing else is set. */
  lemma SpanClip(on: iset<int>, lo: int, hi: int, from: int, to: int)
    requires forall i :: i in on ==> from <= i <= to
    ensures var l, h := if lo < from then from else lo, if hi > to then to else hi;
            Span(on, lo, hi) == Span(on, l, h)
  {
    var l, h := if lo < from then from else lo, if hi > to then to else hi;
    if h < l {
      SpanNone(on, lo, hi);
    } else {
      SpanSplit(on, lo, l - 1, hi);
      SpanNone(on, lo, l - 1);
      SpanSplit(on, l, h, hi);
      SpanNone(on, h + 1, hi);
    }
  }

  lemma {:induction false} SpanCount(on: iset<int>, bits: seq<bool>, base: int, lo: nat, hi: int)
    requires forall j :: 0 <= j < |bits| ==> (base + j in on <==> bits[j])
    requires hi < |bits|
    ensures Span(on, base + lo, base + hi) == Count(bits, lo, hi)
    decreases hi - lo + 1
  {
    if lo <= hi { SpanCount(on, bits, base, lo, hi - 1); }
  }

  /** The bits `bits` of page `p`, and those of the bitmap on that page. */
  ghost predicate OnPage(on: iset<int>, p: nat, bits: seq<bool>) {
    && |bits| <= PAGE_BITS
    && (forall j :: 0 <= j < |bits| ==> (p * PAGE_BITS + j in on <==> bits[j]))
    && forall i :: i in on && i / PAGE_BITS == p ==> i % PAGE_BITS < |bits|
  }

  ghost function InPages(on: iset<int>, pages: set<nat>): iset<int> {
    iset i | i in on && i >= 0 && i / PAGE_BITS in pages
  }

  /** What a page has in the range, clipped to the page. */
  lemma PageShare(on: iset<int>, p: nat, bits: seq<bool>, lo: int, hi: int)
    requires OnPage(on, p, bits) && forall i :: i in on ==> i >= 0
    ensures var first, last := p * PAGE_BITS, p * PAGE_BITS + |bits| - 1;
            var l, h := if lo < first then first else lo, if hi > last then last else hi;
            Span(InPages(on, {p}), lo, hi) == Count(bits, l - first, h - first)
  {
    var first, last := p * PAGE_BITS, p * PAGE_BITS + |bits| - 1;
    var l, h := if lo < first then first else lo, if hi > last then last else hi;
    var own := InPages(on, {p});
    forall i | i in own ensures first <= i <= last {}
    SpanClip(own, lo, hi, first, last);
    forall j | 0 <= j < |bits| ensures first + j in own <==> bits[j] {
      assert (p * PAGE_BITS + j) / PAGE_BITS == p;
    }
    SpanCount(own, bits, first, l - first, h - first);
  }

  lemma MorePages(on: iset<int>, pages: set<nat>, p: nat, lo: int, hi: int)
    requires p !in pages
    ensures Span(InPages(on, pages + {p}), lo, hi) == Span(InPages(on, pages), lo, hi) + Span(InPages(on, {p}), lo, hi)
  {
    SpanSum(InPages(on, pages), InPages(on, {p}), InPages(on, pages + {p}), lo, hi);
  }

  // ---------------------------------------------------------------- the range of BITCOUNT

  /** The bits that `start` and `end` ask for: bytes or bits, counted from the end when negative. */
  ghost function Asked(total: nat, start: int, end: int, bitMode: bool): (int, int) {
    var units := if bitMode then 8 * total else total;
    var s := if start >= 0 then start else if units + start < 0 then 0 else units + start;
    var e := if end >= 0 then end else units + end;
    if bitMode then (s, e) else (8 * s, 8 * e + 7)
  }

  /** Bytes or bits from a first to a last one; from the end, -1 is the last. */
  lemma AskedMeans(total: nat, s: nat, e: nat)
    requires s < total && e < total
    ensures Asked(total, s, e, false) == (8 * s, 8 * e + 7) && Asked(total, s, e, true) == (s, e)
    ensures Asked(total, 0, -1, false) == (0, 8 * total - 1) && Asked(total, 0, -1, true) == (0, 8 * total - 1)
    ensures Asked(total, s - total, e - total, false) == (8 * s, 8 * e + 7)
    ensures Asked(total, s - 8 * total, e - 8 * total, true) == (s, e)
  {}

  function FromEnd(units: int, n: int): int {
    if n < 0 then Wrap(units + n) else n
  }

  /** Units as bits, up to the last bit there is. */
  function InBits(s: int, e: int, maxBit: int, bitMode: bool): Option<(int, int)> {
    var lo := if bitMode then s else Wrap(s * 8);
    var hi := if bitMode then e else Wrap(Wrap(e * 8) + 7);
    var top := if hi > maxBit then maxBit else hi;
    if lo > top then None else Some((lo, top))
  }

  /** The range that is counted, if any. */
  function RangeOf(total: nat, start: int, end: int, bitMode: bool): Option<(int, int)> {
    var units := if bitMode then Wrap(total * 8) else total;
    var s0, e := FromEnd(units, start), FromEnd(units, end);
    var s := if s0 < 0 then 0 else s0;
    if e < 0 || s > e || total == 0 then None
    else InBits(s, e, Wrap(Wrap(total * 8) - 1), bitMode)
  }

  lemma MaxBit(total: nat)
    requires 0 < total <= REACH
    ensures Wrap(Wrap(total * 8) - 1) == 8 * total - 1
  {}

  /** How many bits are counted. */
  ghost function CountOf(on: iset<int>, total: nat, start: int, end: int, bitMode: bool): nat {
    match RangeOf(total, start, end, bitMode)
    case None => 0
    case Some((lo, hi)) => Span(on, lo, hi)
  }

  ghost predicate Within(on: iset<int>, total: nat) {
    forall i :: i in on ==> 0 <= i < 8 * total
  }

  /** For every bitmap of this length the bits counted are those asked for. */
  ghost predicate CountsRight(total: nat, start: int, end: int, bitMode: bool) {
    var (lo, hi) := Asked(total, start, end, bitMode);
    forall on: iset<int> :: Within(on, total) ==> CountOf(on, total, start, end, bitMode) == Span(on, lo, hi)
  }

  // -------- which bits are selected

  ghost predicate Taken(total: nat, start: int, end: int, bitMode: bool, i: int) {
    var r := RangeOf(total, start, end, bitMode);
    r.Some? && r.value.0 <= i <= r.value.1
  }

  ghost predicate Meant(total: nat, start: int, end: int, bitMode: bool, i: int) {
    var (lo, hi) := Asked(total, start, end, bitMode);
    lo <= i <= hi
  }

  ghost predicate SameBits(total: nat, start: int, end: int, bitMode: bool) {
    forall i :: 0 <= i < 8 * total ==> (Taken(total, start, end, bitMode, i) <==> Meant(total, start, end, bitMode, i))
  }

  lemma {:induction false} SpanOne(i: int, lo: int, hi: int)
    ensures Span(iset{i}, lo, hi) == if lo <= i <= hi then 1 else 0
    decreases hi - lo + 1
  {
    if lo <= hi { SpanOne(i, lo, hi - 1); }
  }

  ghost function Inside(on: iset<int>, lo: int, hi: int): iset<int> {
    iset i | i in on && lo <= i <= hi
  }

  /** Of the set bits only those in a range count. */
  lemma SpanInside(on: iset<int>, lo: int, hi: int, from: int, to: int)
    requires forall i :: i in on ==> from <= i <= to
    ensures Span(on, lo, hi) == Span(Inside(on, lo, hi), from, to)
  {
    var inside := Inside(on, lo, hi);
    SpanClip(on, lo, hi, from, to);
    SpanClip(inside, from, to, lo, hi);
    SpanSame(on, inside, if lo < from then from else lo, if hi > to then to else hi);
  }

  lemma RightIfSame(total: nat, start: int, end: int, bitMode: bool, on: iset<int>)
    requires SameBits(total, start, end, bitMode) && Within(on, total)
    ensures var (lo, hi) := Asked(total, start, end, bitMode);
        CountOf(on, total, start, end, bitMode) == Span(on, lo, hi)
  {
    var (lo, hi) := Asked(total, start, end, bitMode);
    SpanInside(on, lo, hi, 0, 8 * total - 1);
    var meant := Inside(on, lo, hi);
    match RangeOf(total, start, end, bitMode) {
      case None =>
        forall i | i in meant ensures false { assert Meant(total, start, end, bitMode, i); }
        SpanNone(meant, 0, 8 * total - 1);
      case Some((l, h)) =>
        SpanInside(on, l, h, 0, 8 * total - 1);
        var taken := Inside(on, l, h);
        forall i ensures i in taken <==> i in meant {
          if i in on { assert Taken(total, start, end, bitMode, i) <==> Meant(total, start, end, bitMode, i); }
        }
        assert taken == meant;
    }
  }

  lemma SameIfRight(total: nat, start: int, end: int, bitMode: bool, i: int)
    requires CountsRight(total, start, end, bitMode) && 0 <= i < 8 * total
    ensures Taken(total, start, end, bitMode, i) <==> Meant(total, start, end, bitMode, i)
  {
    var one := iset{i};
    assert Within(one, total);
    var (lo, hi) := Asked(total, start, end, bitMode);
    SpanOne(i, lo, hi);
    var r := RangeOf(total, start, end, bitMode);
    if r.Some? { SpanOne(i, r.value.0, r.value.1); }
  }

  lemma RightIffSame(total: nat, start: int, end: int, bitMode: bool)
    ensures CountsRight(total, start, end, bitMode) <==> SameBits(total, start, end, bitMode)
  {
    if SameBits(total, start, end, bitMode) {
      forall on: iset<int> | Within(on, total)
        ensures var (lo, hi) := Asked(total, start, end, bitMode);
            CountOf(on, total, start, end, bitMode) == Span(on, lo, hi)
      {
        RightIfSame(total, start, end, bitMode, on);
      }
    }
    if CountsRight(total, start, end, bitMode) {
      forall i | 0 <= i < 8 * total ensures Taken(total, start, end, bitMode, i) <==>
          Meant(total, start, end, bitMode, i) {
        SameIfRight(total, start, end, bitMode, i);
      }
    }
  }

  // -------- when they are the same

  /** The first and the last byte asked for. */
  ghost function FirstByte(total: nat, start: int): int {
    if start >= 0 then start else if total + start < 0 then 0 else total + start
  }

  ghost function LastByte(total: nat, end: int): int {
    if end >= 0 then end else total + end
  }

  /** Ranges of bits are always counted right. Of ranges of bytes, those that are empty or end below 2^60 are;
      a range that ends further up is right if, with the offsets taken modulo 2^61, it still reaches the
      end of the bitmap, or still takes nothing. */
  ghost predicate Exact(total: nat, start: int, end: int, bitMode: bool) {
    bitMode ||
    var s, e := FirstByte(total, start), LastByte(total, end);
    s > e || e < REACH ||
    var rs, r := s % (2 * REACH), e % (2 * REACH);
    if s < total then total - 1 <= r < REACH
    else s < REACH || r >= REACH || (rs < REACH && (rs > r || rs >= total))
  }

  lemma FromEndIs(units: int, n: int)
    requires Int64(n) && 0 <= units < TWO63
    ensures FromEnd(units, n) == if n >= 0 then n else units + n
  {
    if n < 0 { WrapFits(units + n); }
  }

  /** Even where the number of bits wraps, an offset from the end comes out right. */
  lemma BitFromEnd(total: nat, n: int)
    requires Int64(n) && total <= REACH
    ensures FromEnd(Wrap(total * 8), n) == if n >= 0 then n else 8 * total + n
  {
    if total < REACH { WrapFits(total * 8); FromEndIs(total * 8, n); }
  }

  lemma BitRange(total: nat, start: int, end: int)
    requires 0 < total <= REACH && Int64(start) && Int64(end)
    ensures SameBits(total, start, end, true)
  {
    MaxBit(total);
    BitFromEnd(total, start);
    BitFromEnd(total, end);
  }

  /** Eight times an offset, in 64 bits. */
  lemma Times8(x: nat)
    requires x < TWO63
    ensures var r := x % (2 * REACH);
            Wrap(x * 8) == (if r < REACH then 8 * r else 8 * r - TWO64) && Wrap(Wrap(x * 8) + 7) == Wrap(x * 8) + 7
  {
    var q, r := x / (2 * REACH), x % (2 * REACH);
    assert x * 8 == q * TWO64 + 8 * r;
    assert q == 0 || q == 1 || q == 2 || q == 3;
  }

  /** The bits taken of a non-empty range of bytes. */
  lemma ByteRange(total: nat, start: int, end: int, s: nat, e: nat)
    requires 0 < total <= REACH && Int64(start) && Int64(end)
    requires s == FirstByte(total, start) && e == LastByte(total, end) && s <= e
    ensures RangeOf(total, start, end, false) == InBits(s, e, 8 * total - 1, false)
  {
    MaxBit(total);
    FromEndIs(total, start);
    FromEndIs(total, end);
  }

  lemma EmptyRange(total: nat, start: int, end: int)
    requires 0 < total <= REACH && Int64(start) && Int64(end) && FirstByte(total, start) > LastByte(total, end)
    ensures SameBits(total, start, end, false)
  {
    FromEndIs(total, start);
    FromEndIs(total, end);
  }

  /** A range of bytes on a bitmap of `total` bytes, with the two bounds in 64 bits. */
  ghost predicate BytesRight(total: nat, s: nat, e: nat) {
    var rs, r := s % (2 * REACH), e % (2 * REACH);
    e < REACH ||
    if s < total then total - 1 <= r < REACH else s < REACH || r >= REACH || (rs < REACH && (rs > r || rs >= total))
  }

  lemma BytesWhenRight(total: nat, s: nat, e: nat, i: int)
    requires 0 < total <= REACH && s <= e < TWO63 && 0 <= i < 8 * total && BytesRight(total, s, e)
    ensures var r := InBits(s, e, 8 * total - 1, false); (r.Some? && r.value.0 <= i <= r.value.1) <==>
        8 * s <= i <= 8 * e + 7
  {
    Times8(s);
    Times8(e);
  }

  /** Otherwise some bit is left out, or one too many is taken. */
  lemma BytesWhenWrong(total: nat, s: nat, e: nat) returns (i: int)
    requires 0 < total <= REACH && s <= e < TWO63 && !BytesRight(total, s, e)
    ensures 0 <= i < 8 * total
    ensures var r := InBits(s, e, 8 * total - 1, false);
        !((r.Some? && r.value.0 <= i <= r.value.1) <==> 8 * s <= i <= 8 * e + 7)
  {
    Times8(s);
    Times8(e);
    var rs := s % (2 * REACH);
    i := if s < total then 8 * total - 1 else if rs < REACH then 8 * rs else 0;
  }

  lemma ByteRangeIff(total: nat, start: int, end: int)
    requires 0 < total <= REACH && Int64(start) && Int64(end)
    ensures SameBits(total, start, end, false) <==> Exact(total, start, end, false)
  {
    var s, e := FirstByte(total, start), LastByte(total, end);
    if s > e {
      EmptyRange(total, start, end);
    } else {
      ByteRange(total, start, end, s, e);
      if BytesRight(total, s, e) {
        forall i | 0 <= i < 8 * total ensures Taken(total, start, end, false, i) <==>
            Meant(total, start, end, false, i) {
          BytesWhenRight(total, s, e, i);
        }
      } else {
        var i := BytesWhenWrong(total, s, e);
        assert !(Taken(total, start, end, false, i) <==> Meant(total, start, end, false, i));
      }
    }
  }

  /** The range is counted right on every bitmap of a length if and only if it is exact for that length. */
  lemma CountsRightIff(total: nat, start: int, end: int, bitMode: bool)
    requires 0 < total <= REACH && Int64(start) && Int64(end)
    ensures CountsRight(total, start, end, bitMode) <==> Exact(total, start, end, bitMode)
  {
    RightIffSame(total, start, end, bitMode);
    if bitMode { BitRange(total, start, end); } else { ByteRangeIff(total, start, end); }
  }

  /** With no page there is nothing to count. */
  lemma NothingToCount(on: iset<int>, start: int, end: int, bitMode: bool)
    requires Within(on, 0)
    ensures var (lo, hi) := Asked(0, start, end, bitMode); CountOf(on, 0, start, end, bitMode) == Span(on, lo, hi) == 0
  {
    var (lo, hi) := Asked(0, start, end, bitMode);
    SpanNone(on, lo, hi);
  }

  /** A bitmap of one byte with its first bit set: the count from byte 0 to the largest offset is 0, because
      the last bit of that range wraps to -1. */
  lemma OverflowCountsNothing(name: Bytes) returns (kv: Kv)
    ensures Paged(kv, name) && IsTotal(kv, name, 1) && On(kv, name) == iset{0}
    ensures CountOf(On(kv, name), 1, 0, TWO63 - 1, false) == 0
    ensures var (lo, hi) := Asked(1, 0, TWO63 - 1, false); Span(On(kv, name), lo, hi) == 1
  {
    kv := map[PageKey(name, 0) := [0x80]];
    OnlyPage(kv, name);
    LargestOffset(iset{0});
  }

  lemma LargestOffset(on: iset<int>)
    requires on == iset{0}
    ensures CountOf(on, 1, 0, TWO63 - 1, false) == 0
    ensures var (lo, hi) := Asked(1, 0, TWO63 - 1, false); Span(on, lo, hi) == 1
  {
    var (lo, hi) := Asked(1, 0, TWO63 - 1, false);
    SpanOne(0, lo, hi);
  }

  lemma OnlyPage(kv: Kv, name: Bytes)
    requires kv == map[PageKey(name, 0) := [0x80]]
    ensures Paged(kv, name) && IsTotal(kv, name, 1) && On(kv, name) == iset{0}
  {
    NumberOfKey(name, 0);
    forall k ensures PageAt(kv, name, k) {
      if k in kv {
        var n := |PagePrefix(name)|;
        assert k[n..] == k[n..n + 8];
      }
    }
    forall p | 0 <= p < PAGES ensures PageOf(kv, name, p) == if p == 0 then [0x80] else [] {
      NumberOfKey(name, p);
    }
    assert EndOf(kv, name, 0) == 1;
    forall i ensures i in On(kv, name) <==> i == 0 {
      if 0 <= i < TWO63 { OneBit(i % PAGE_BITS); }
    }
  }

  lemma OneBit(j: nat)
    ensures BitAt([0x80], j) <==> j == 0
  {
    if j < 8 { FirstBitOnly(j); }
  }

  lemma FirstBitOnly(i: nat)
    requires i < 8
    ensures BitOf(0x80, i) <==> i == 0
  {}

  // ---------------------------------------------------------------- the operations

  ghost predicate IsTotal(kv: Kv, name: Bytes, total: nat) {
    && (forall p :: 0 <= p < PAGES && PageOf(kv, name, p) != [] ==> EndOf(kv, name, p) <= total)
    && (total > 0 ==> exists p :: 0 <= p < PAGES && PageOf(kv, name, p) != [] && EndOf(kv, name, p) == total)
  }

  /** A bitmap has one length. */
  lemma OneTotal(kv: Kv, name: Bytes, a: nat, b: nat)
    requires IsTotal(kv, name, a) && IsTotal(kv, name, b)
    ensures a == b
  {}

  /** What a count over a range is: that of the range taken, which is the range asked for if it is exact. */
  ghost predicate Counts(kv: Kv, name: Bytes, total: nat, start: int, end: int, bitMode: bool, count: nat)
    requires Int64(start) && Int64(end)
  {
    && count == CountOf(On(kv, name), total, start, end, bitMode)
    && (total == 0 || Exact(total, start, end, bitMode) ==>
          var (lo, hi) := Asked(total, start, end, bitMode); count == Span(On(kv, name), lo, hi))
  }

  /** The first byte after page `p`. */
  function EndOf(kv: Kv, name: Bytes, p: nat): nat {
    p * PAGE_BYTES + |PageOf(kv, name, p)|
  }

  class Bitmaps {
    var kv: Kv

    method SetBit(name: Bytes, offset: int, val: int) returns (r: Option<int>)
      requires Int64(offset) && Paged(kv, name)
      modifies this
      ensures offset < 0 ==> r.None? && kv == old(kv)
      ensures offset >= 0 ==> r == Some(if offset in On(old(kv), name) then 1 else 0)
      ensures offset >= 0 ==>
          On(kv, name) == if val != 0 then On(old(kv), name) + iset{offset} else On(old(kv), name) - iset{offset}
      ensures forall other :: other != name ==> On(kv, other) == On(old(kv), other)
      ensures forall other :: Unmixed(name, other) && Paged(old(kv), other) ==> Paged(kv, other)
    {
      if offset < 0 { return None; }
      var page, j := offset / PAGE_BITS, offset % PAGE_BITS;
      var data := PageOf(kv, name, page);
      r := Some(if BitAt(data, j) then 1 else 0);
      assert PageAt(kv, name, PageKey(name, page));
      var stored := Stored(data, j / 8, j % 8, val != 0);
      kv := kv[PageKey(name, page) := stored];
      forall other, i
        ensures Bit(kv, other, i) <==> if other == name && i == offset then val != 0 else Bit(old(kv), other, i)
      {
        StoredOn(old(kv), name, offset, val != 0, kv, other, i);
      }
      forall other | Unmixed(name, other) && Paged(old(kv), other) ensures Paged(kv, other) {
        StoredPaged(old(kv), name, page, stored, other);
      }
    }

    method GetBit(name: Bytes, offset: int) returns (r: Option<int>)
      requires Int64(offset)
      ensures r == if offset < 0 then None else Some(if offset in On(kv, name) then 1 else 0)
    {
      if offset < 0 { return None; }
      var page, j := offset / PAGE_BITS, offset % PAGE_BITS;
      return Some(if BitAt(PageOf(kv, name, page), j) then 1 else 0);
    }

    /** The number of set bits from `start` to `end`, for the one `total` that is the length of the bitmap
        in bytes. `keys` are the live keys under the prefix, in any order. */
    method BitCountRange(name: Bytes, start: int, end: int, bitMode: bool, keys: seq<Key>) returns (count: nat)
      requires Paged(kv, name) && Int64(start) && Int64(end) && Lists(kv, name, keys)
      ensures exists total: nat :: IsTotal(kv, name, total)
      ensures forall total: nat :: IsTotal(kv, name, total) ==> Counts(kv, name, total, start, end, bitMode, count)
    {
      var total := TotalBytes(name, keys);
      LengthBounds(kv, name, total);
      if total == 0 {
        NothingToCount(On(kv, name), start, end, bitMode);
      } else {
        CountsRightIff(total, start, end, bitMode);
      }
      match RangeOf(total, start, end, bitMode) {
        case None => count := 0;
        case Some((lo, hi)) => count := CountPages(name, lo, hi, keys);
      }
      forall other: nat | IsTotal(kv, name, other) ensures Counts(kv, name, other, start, end, bitMode, count) {
        OneTotal(kv, name, total, other);
      }
    }

    method TotalBytes(name: Bytes, keys: seq<Key>) returns (total: nat)
      requires Paged(kv, name) && Lists(kv, name, keys)
      ensures IsTotal(kv, name, total)
    {
      total := 0;
      for i := 0 to |keys|
        invariant forall r :: 0 <= r < i && kv[keys[r]] != [] ==>
            NumberOf(name, keys[r]) * PAGE_BYTES + |kv[keys[r]]| <= total
        invariant total > 0 ==> exists r ::
            0 <= r < i && kv[keys[r]] != [] && NumberOf(name, keys[r]) * PAGE_BYTES + |kv[keys[r]]| == total
      {
        var k := keys[i];
        assert PageAt(kv, name, k);
        if |kv[k]| > 0 && |k| >= |PagePrefix(name)| + 8 {
          var endByte := NumberOf(name, k) * PAGE_BYTES + |kv[k]|;
          if endByte > total { total := endByte; }
        }
      }
      ListedTotal(kv, name, keys, total);
    }

    method CountPages(name: Bytes, lo: int, hi: int, keys: seq<Key>) returns (count: nat)
      requires Paged(kv, name) && Lists(kv, name, keys)
      ensures count == Span(On(kv, name), lo, hi)
    {
      count := 0;
      ghost var on := On(kv, name);
      assert Numbers(name, keys[..0]) == {};
      SpanNone(InPages(on, {}), lo, hi);
      for i := 0 to |keys|
        invariant count == Span(InPages(on, Numbers(name, keys[..i])), lo, hi)
      {
        NextNumber(kv, name, keys, i);
        var page := NumberOf(name, keys[i]);
        MorePages(on, Numbers(name, keys[..i]), page, lo, hi);
        var c := CountPage(kv[keys[i]], page, lo, hi, Flat(kv[keys[i]]), on);
        count := count + c;
      }
      assert keys[..|keys|] == keys;
      AllPages(kv, name, keys, lo, hi);
    }
  }

  /** The set bits of one page in the range. */
  method CountPage(data: Page, page: nat, lo: int, hi: int, ghost bits: seq<bool>, ghost on: iset<int>)
    returns (count: nat)
    requires Flattens(bits, data) && OnPage(on, page, bits) && forall i :: i in on ==> i >= 0
    ensures count == Span(InPages(on, {page}), lo, hi)
  {
    PageShare(on, page, bits, lo, hi);
    if |data| == 0 { return 0; }
    var first, last := page * PAGE_BITS, page * PAGE_BITS + |data| * 8 - 1;
    var l, h := if lo < first then first else lo, if hi > last then last else hi;
    if l > h { return 0; }
    count := CountBitsInRange(data, l - first, h - first, bits);
  }

  /** `keys` are the live keys under the prefix of a bitmap, each once. */
  ghost predicate Lists(kv: Kv, name: Bytes, keys: seq<Key>) {
    && (forall i, j :: 0 <= i < j < |keys| ==> keys[i] != keys[j])
    && (forall i :: 0 <= i < |keys| ==> keys[i] in kv && PagePrefix(name) <= keys[i])
    && forall k :: k in kv && PagePrefix(name) <= k ==> k in keys
  }

  /** The page number in a key. */
  function NumberOf(name: Bytes, k: Key): nat {
    if |k| >= |PagePrefix(name)| + 8 then FromBigEndian(k[|PagePrefix(name)|..|PagePrefix(name)| + 8]) else 0
  }

  ghost function Numbers(name: Bytes, keys: seq<Key>): set<nat> {
    set i | 0 <= i < |keys| :: NumberOf(name, keys[i])
  }

  lemma KeyOfNumber(kv: Kv, name: Bytes, k: Key)
    requires Paged(kv, name) && k in kv && PagePrefix(name) <= k
    ensures k == PageKey(name, NumberOf(name, k)) && NumberOf(name, k) < PAGES
    ensures PageOf(kv, name, NumberOf(name, k)) == kv[k] && |kv[k]| <= PAGE_BYTES
  {
    assert PageAt(kv, name, k);
    var n := |PagePrefix(name)|;
    assert k[n..n + 8] == k[n..];
    FromBigEndianRound(k[n..]);
  }

  lemma NumberOfKey(name: Bytes, p: nat)
    requires p < PAGES
    ensures NumberOf(name, PageKey(name, p)) == p && PagePrefix(name) <= PageKey(name, p)
  {
    var n := |PagePrefix(name)|;
    assert PageKey(name, p)[n..n + 8] == BigEndian(p, 8);
    Widths();
    BigEndianRound(p, 8);
  }

  lemma ListedTotal(kv: Kv, name: Bytes, keys: seq<Key>, total: nat)
    requires Paged(kv, name) && Lists(kv, name, keys)
    requires forall r :: 0 <= r < |keys| && kv[keys[r]] != [] ==>
        NumberOf(name, keys[r]) * PAGE_BYTES + |kv[keys[r]]| <= total
    requires total > 0 ==> exists r ::
        0 <= r < |keys| && kv[keys[r]] != [] && NumberOf(name, keys[r]) * PAGE_BYTES + |kv[keys[r]]| == total
    ensures IsTotal(kv, name, total)
  {
    forall p | 0 <= p < PAGES && PageOf(kv, name, p) != [] ensures EndOf(kv, name, p) <= total {
      NumberOfKey(name, p);
      var r :| 0 <= r < |keys| && keys[r] == PageKey(name, p);
    }
    if total > 0 {
      var r :| 0 <= r < |keys| && kv[keys[r]] != [] && NumberOf(name, keys[r]) * PAGE_BYTES + |kv[keys[r]]| == total;
      KeyOfNumber(kv, name, keys[r]);
      assert EndOf(kv, name, NumberOf(name, keys[r])) == total;
    }
  }

  lemma BitBelow(kv: Kv, name: Bytes, total: nat, i: int)
    requires Paged(kv, name) && IsTotal(kv, name, total) && Bit(kv, name, i)
    ensures 0 <= i < 8 * total
  {
    var p, j := i / PAGE_BITS, i % PAGE_BITS;
    assert j / 8 < |PageOf(kv, name, p)|;
    assert EndOf(kv, name, p) <= total;
  }

  lemma LengthBounds(kv: Kv, name: Bytes, total: nat)
    requires Paged(kv, name) && IsTotal(kv, name, total)
    ensures total <= REACH && forall i :: i in On(kv, name) ==> 0 <= i < 8 * total
  {
    if total > 0 {
      var p :| 0 <= p < PAGES && PageOf(kv, name, p) != [] && EndOf(kv, name, p) == total;
      assert PageAt(kv, name, PageKey(name, p));
      NumberOfKey(name, p);
    }
    forall i | i in On(kv, name) ensures 0 <= i < 8 * total { BitBelow(kv, name, total, i); }
  }

  ghost function Flat(data: Page): (bits: seq<bool>)
    ensures |bits| == 8 * |data|
  {
    seq(8 * |data|, j requires 0 <= j < 8 * |data| => BitAt(data, j))
  }

  lemma FlatSpells(data: Page, b: nat)
    requires b < |data|
    ensures Spells(Flat(data), 8 * b, data[b])
  {
    forall i | 0 <= i < 8 ensures Flat(data)[8 * b + i] == BitOf(data[b], i) {
      assert (8 * b + i) / 8 == b && (8 * b + i) % 8 == i;
    }
  }

  lemma BitPlace(kv: Kv, name: Bytes, p: nat, j: nat)
    requires p < PAGES && j < PAGE_BITS
    ensures Bit(kv, name, p * PAGE_BITS + j) <==> BitAt(PageOf(kv, name, p), j)
  {
    assert (p * PAGE_BITS + j) / PAGE_BITS == p && (p * PAGE_BITS + j) % PAGE_BITS == j;
  }

  lemma FlatOnPage(kv: Kv, name: Bytes, p: nat)
    requires p < PAGES && |PageOf(kv, name, p)| <= PAGE_BYTES
    ensures OnPage(On(kv, name), p, Flat(PageOf(kv, name, p)))
  {
    var on, data := On(kv, name), PageOf(kv, name, p);
    var bits := Flat(data);
    forall j | 0 <= j < |bits| ensures p * PAGE_BITS + j in on <==> bits[j] { BitPlace(kv, name, p, j); }
  }

  lemma NextNumber(kv: Kv, name: Bytes, keys: seq<Key>, i: nat)
    requires Paged(kv, name) && Lists(kv, name, keys) && i < |keys|
    ensures var p := NumberOf(name, keys[i]);
            && p !in Numbers(name, keys[..i]) && Numbers(name, keys[..i + 1]) == Numbers(name, keys[..i]) + {p}
            && PageOf(kv, name, p) == kv[keys[i]]
            && Flattens(Flat(kv[keys[i]]), kv[keys[i]]) && OnPage(On(kv, name), p, Flat(kv[keys[i]]))
  {
    KeyOfNumber(kv, name, keys[i]);
    FlatOnPage(kv, name, NumberOf(name, keys[i]));
    forall b | 0 <= b < |kv[keys[i]]|
      ensures Spells(Flat(kv[keys[i]]), 8 * b, kv[keys[i]][b]) { FlatSpells(kv[keys[i]], b); }
    forall r | 0 <= r < i ensures NumberOf(name, keys[r]) != NumberOf(name, keys[i]) { KeyOfNumber(kv, name, keys[r]); }
  }

  lemma BitListed(kv: Kv, name: Bytes, keys: seq<Key>, i: int)
    requires Lists(kv, name, keys) && Bit(kv, name, i)
    ensures i >= 0 && i / PAGE_BITS in Numbers(name, keys)
  {
    var p := i / PAGE_BITS;
    NumberOfKey(name, p);
    assert PageKey(name, p) in kv;
    var r :| 0 <= r < |keys| && keys[r] == PageKey(name, p);
  }

  lemma AllPages(kv: Kv, name: Bytes, keys: seq<Key>, lo: int, hi: int)
    requires Paged(kv, name) && Lists(kv, name, keys)
    ensures Span(InPages(On(kv, name), Numbers(name, keys)), lo, hi) == Span(On(kv, name), lo, hi)
  {
    var on, pages := On(kv, name), Numbers(name, keys);
    forall i | i in on ensures i in InPages(on, pages) { BitListed(kv, name, keys, i); }
    SpanSame(InPages(on, pages), on, lo, hi);
  }
}
