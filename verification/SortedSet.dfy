/** Sorted sets: a member index and a score index in one key space. */
module SortedSet {
  import opened Store
  import opened ByteOrder
  import opened Encoding
  import opened Score

  /** The live keys of the store and their values. */
  type Kv = map<Key, Bytes>

  // ---------------------------------------------------------------- keys

  function Named(name: Bytes, rest: Bytes): Key {
    [122, 0] + name + [0] + rest
  }

  function ValKey(name: Bytes, member: Bytes): Key {
    Named(name, [118, 0] + member)
  }

  function ScorePrefix(name: Bytes): Key {
    Named(name, [115, 0])
  }

  /** The key of a member under its encoded score. */
  function ScoreKey(name: Bytes, enc: Bytes, member: Bytes): Key {
    ScorePrefix(name) + enc + [0] + member
  }

  lemma NamedApart(a: Bytes, x: Bytes, b: Bytes, y: Bytes)
    requires Unmixed(a, b) && Named(a, x) == Named(b, y)
    ensures a == b && x == y
  {
    assert Named(a, x)[2..] == a + [0] + x && Named(b, y)[2..] == b + [0] + y;
    NameEnds(a, x, b, y);
  }

  lemma ScoreKeyRest(name: Bytes, enc: Bytes, m: Bytes)
    ensures ScoreKey(name, enc, m) == Named(name, [115, 0] + enc + [0] + m)
  {}

  lemma ValKeysDiffer(a: Bytes, m: Bytes, b: Bytes, n: Bytes)
    requires Unmixed(a, b) && ValKey(a, m) == ValKey(b, n)
    ensures a == b && m == n
  {
    NamedApart(a, [118, 0] + m, b, [118, 0] + n);
    assert ([118, 0] + m)[2..] == m && ([118, 0] + n)[2..] == n;
  }

  lemma ScoreKeysDiffer(a: Bytes, enc: Bytes, m: Bytes, b: Bytes, enc': Bytes, n: Bytes)
    requires Unmixed(a, b) && |enc| == 8 && |enc'| == 8 && ScoreKey(a, enc, m) == ScoreKey(b, enc', n)
    ensures a == b && enc == enc' && m == n
  {
    var x, y := [115, 0] + enc + [0] + m, [115, 0] + enc' + [0] + n;
    ScoreKeyRest(a, enc, m);
    ScoreKeyRest(b, enc', n);
    NamedApart(a, x, b, y);
    assert x[2..10] == enc && y[2..10] == enc' && x[11..] == m && y[11..] == n;
  }

  lemma KindsDiffer(a: Bytes, m: Bytes, b: Bytes, enc: Bytes, n: Bytes)
    requires Unmixed(a, b)
    ensures ValKey(a, m) != ScoreKey(b, enc, n)
  {
    var x, y := [118, 0] + m, [115, 0] + enc + [0] + n;
    assert x[0] == 118 && y[0] == 115;
    ScoreKeyRest(b, enc, n);
    if ValKey(a, m) == ScoreKey(b, enc, n) { NamedApart(a, x, b, y); }
  }

  // ---------------------------------------------------------------- the two indexes agree

  /** The encoding of a score, negative zero and what is not a number excepted. */
  ghost predicate Canonical(enc: Bytes) {
    |enc| == 8 && IsScore(DecodeScore(enc)) && EncodeScore(DecodeScore(enc)) == enc
  }

  ghost predicate MemberOk(kv: Kv, name: Bytes, m: Bytes) {
    ValKey(name, m) in kv ==> Canonical(kv[ValKey(name, m)])
  }

  /** The score index holds `m` under `enc` exactly when the member index says so. */
  ghost predicate PairOk(kv: Kv, name: Bytes, enc: Bytes, m: Bytes) {
    |enc| == 8 ==> (ScoreKey(name, enc, m) in kv <==> ValKey(name, m) in kv && kv[ValKey(name, m)] == enc)
  }

  /** Under the score prefix there are only score keys. */
  ghost predicate Tidy(kv: Kv, name: Bytes, k: Key) {
    k in kv && ScorePrefix(name) <= k ==> |k| >= |ScorePrefix(name)| + 9 && k[|ScorePrefix(name)| + 8] == 0
  }

  ghost predicate Agree(kv: Kv, name: Bytes) {
    && (forall m :: MemberOk(kv, name, m))
    && (forall enc, m :: PairOk(kv, name, enc, m))
    && forall k :: Tidy(kv, name, k)
  }

  /** A store that holds nothing of a sorted set, an empty store among others, agrees on it. */
  lemma UnusedAgrees(kv: Kv, name: Bytes)
    requires forall k :: k in kv ==> !(Named(name, []) <= k)
    ensures Agree(kv, name)
  {
    forall m ensures MemberOk(kv, name, m) { assert Named(name, []) <= ValKey(name, m); }
    forall enc, m ensures PairOk(kv, name, enc, m) {
      assert Named(name, []) <= ValKey(name, m);
      assert Named(name, []) <= ScoreKey(name, enc, m);
    }
    forall k ensures Tidy(kv, name, k) {
      if ScorePrefix(name) <= k { assert Named(name, []) <= k; }
    }
  }

  lemma UnderPrefix(name: Bytes, k: Key)
    requires ScorePrefix(name) <= k
    ensures k == Named(name, [115, 0] + k[|ScorePrefix(name)|..])
  {}

  lemma ValKeyElsewhere(name: Bytes, m: Bytes, other: Bytes)
    requires Unmixed(name, other)
    ensures !(ScorePrefix(other) <= ValKey(name, m))
  {
    var x, y := [118, 0] + m, [115, 0] + if ScorePrefix(other) <= ValKey(name, m)
        then ValKey(name, m)[|ScorePrefix(other)|..] else [];
    assert x[0] == 118 && y[0] == 115;
    if ScorePrefix(other) <= ValKey(name, m) {
      UnderPrefix(other, ValKey(name, m));
      NamedApart(name, x, other, y);
    }
  }

  lemma TidyKeys(kv: Kv, name: Bytes, m: Bytes, enc: Bytes, kv': Kv, other: Bytes)
    requires Unmixed(name, other) && |enc| == 8 && Agree(kv, other)
    requires forall k :: k in kv' ==> k in kv || k == ValKey(name, m) || k == ScoreKey(name, enc, m)
    ensures forall k :: Tidy(kv', other, k)
  {
    var p := |ScorePrefix(other)|;
    forall k ensures Tidy(kv', other, k) {
      assert Tidy(kv, other, k);
      if k in kv' && k !in kv && ScorePrefix(other) <= k {
        ValKeyElsewhere(name, m, other);
        UnderPrefix(other, k);
        ScoreKeyRest(name, enc, m);
        NamedApart(other, [115, 0] + k[p..], name, [115, 0] + enc + [0] + m);
      }
    }
  }

  /** The score of a member, as its encoding. */
  function ScoreOf(kv: Kv, name: Bytes, m: Bytes): Option<Bytes> {
    if ValKey(name, m) in kv then Some(kv[ValKey(name, m)]) else None
  }

  ghost predicate HasScore(kv: Kv, name: Bytes, m: Bytes, bits: nat) {
    IsScore(bits) && ScoreOf(kv, name, m) == Some(EncodeScore(bits))
  }

  /** A member with its new score; an old score key goes when the score changes. */
  function AddOne(kv: Kv, name: Bytes, m: Bytes, enc: Bytes): Kv {
    var was := ScoreOf(kv, name, m);
    var cleared := if was.Some? && was.value != enc then kv - {ScoreKey(name, was.value, m)} else kv;
    cleared[ValKey(name, m) := enc][ScoreKey(name, enc, m) := []]
  }

  function RemoveOne(kv: Kv, name: Bytes, m: Bytes): Kv {
    var was := ScoreOf(kv, name, m);
    if was.None? then kv else kv - {ScoreKey(name, was.value, m), ValKey(name, m)}
  }

  lemma AddOneMember(kv: Kv, name: Bytes, m: Bytes, enc: Bytes, other: Bytes, n: Bytes)
    requires Unmixed(name, other) && Agree(kv, name) && Canonical(enc)
    ensures ScoreOf(AddOne(kv, name, m, enc), other, n) ==
        if other == name && n == m then Some(enc) else ScoreOf(kv, other, n)
  {
    assert MemberOk(kv, name, m);
    KindsDiffer(other, n, name, enc, m);
    if ScoreOf(kv, name, m).Some? { KindsDiffer(other, n, name, ScoreOf(kv, name, m).value, m); }
    if ValKey(other, n) == ValKey(name, m) { ValKeysDiffer(other, n, name, m); }
  }

  lemma AddOnePair(kv: Kv, name: Bytes, m: Bytes, enc: Bytes, other: Bytes, enc': Bytes, n: Bytes)
    requires Unmixed(name, other) && Agree(kv, name) && Agree(kv, other) && Canonical(enc) && |enc'| == 8
    ensures ScoreKey(other, enc', n) in AddOne(kv, name, m, enc) <==>
        ScoreOf(AddOne(kv, name, m, enc), other, n) == Some(enc')
  {
    AddOneMember(kv, name, m, enc, other, n);
    assert MemberOk(kv, name, m) && PairOk(kv, other, enc', n);
    KindsDiffer(name, m, other, enc', n);
    if ScoreKey(other, enc', n) == ScoreKey(name, enc, m) { ScoreKeysDiffer(other, enc', n, name, enc, m); }
    var was := ScoreOf(kv, name, m);
    if was.Some? && ScoreKey(other, enc', n) == ScoreKey(name, was.value, m) {
      ScoreKeysDiffer(other, enc', n, name, was.value, m);
    }
  }

  /** Setting one score keeps the indexes of every set in agreement, and changes nothing else. */
  lemma AddOneAgrees(kv: Kv, name: Bytes, m: Bytes, enc: Bytes, other: Bytes)
    requires Unmixed(name, other) && Agree(kv, name) && Agree(kv, other) && Canonical(enc)
    ensures Agree(AddOne(kv, name, m, enc), other)
  {
    var kv' := AddOne(kv, name, m, enc);
    forall n ensures MemberOk(kv', other, n) {
      AddOneMember(kv, name, m, enc, other, n);
      assert MemberOk(kv, other, n);
    }
    forall enc', n ensures PairOk(kv', other, enc', n) {
      if |enc'| == 8 { AddOnePair(kv, name, m, enc, other, enc', n); }
    }
    TidyKeys(kv, name, m, enc, kv', other);
  }

  lemma RemoveOneMember(kv: Kv, name: Bytes, m: Bytes, other: Bytes, n: Bytes)
    requires Unmixed(name, other) && Agree(kv, name)
    ensures ScoreOf(RemoveOne(kv, name, m), other, n) == if other == name && n == m then None else ScoreOf(kv, other, n)
  {
    assert MemberOk(kv, name, m);
    if ScoreOf(kv, name, m).Some? { KindsDiffer(other, n, name, ScoreOf(kv, name, m).value, m); }
    if ValKey(other, n) == ValKey(name, m) { ValKeysDiffer(other, n, name, m); }
  }

  lemma RemoveOnePair(kv: Kv, name: Bytes, m: Bytes, other: Bytes, enc': Bytes, n: Bytes)
    requires Unmixed(name, other) && Agree(kv, name) && Agree(kv, other) && |enc'| == 8
    ensures ScoreKey(other, enc', n) in RemoveOne(kv, name, m) <==>
        ScoreOf(RemoveOne(kv, name, m), other, n) == Some(enc')
  {
    RemoveOneMember(kv, name, m, other, n);
    assert MemberOk(kv, name, m) && PairOk(kv, other, enc', n);
    KindsDiffer(name, m, other, enc', n);
    var was := ScoreOf(kv, name, m);
    if was.Some? && ScoreKey(other, enc', n) == ScoreKey(name, was.value, m) {
      ScoreKeysDiffer(other, enc', n, name, was.value, m);
    }
  }

  lemma RemoveOneAgrees(kv: Kv, name: Bytes, m: Bytes, other: Bytes)
    requires Unmixed(name, other) && Agree(kv, name) && Agree(kv, other)
    ensures Agree(RemoveOne(kv, name, m), other)
  {
    var kv' := RemoveOne(kv, name, m);
    forall n ensures MemberOk(kv', other, n) {
      RemoveOneMember(kv, name, m, other, n);
      assert MemberOk(kv, other, n);
    }
    forall enc', n ensures PairOk(kv', other, enc', n) {
      if |enc'| == 8 { RemoveOnePair(kv, name, m, other, enc', n); }
    }
    forall k ensures Tidy(kv', other, k) { assert Tidy(kv, other, k); }
  }

  // ---------------------------------------------------------------- batches

  datatype Op = Set(key: Key, value: Bytes) | Del(key: Key)

  function Apply(kv: Kv, op: Op): Kv {
    match op
    case Set(k, v) => kv[k := v]
    case Del(k) => kv - {k}
  }

  function ApplyAll(kv: Kv, ops: seq<Op>): Kv {
    if ops == [] then kv else Apply(ApplyAll(kv, ops[..|ops| - 1]), ops[|ops| - 1])
  }

  lemma ApplySnoc(kv: Kv, ops: seq<Op>, op: Op)
    ensures ApplyAll(kv, ops + [op]) == Apply(ApplyAll(kv, ops), op)
  {
    assert (ops + [op])[..|ops|] == ops;
  }

  /** The members of `order`, each with its score, added one after the other. */
  ghost function AddAll(kv: Kv, name: Bytes, order: seq<Bytes>, scores: map<Bytes, nat>): Kv
    requires forall m :: m in order ==> m in scores && IsScore(scores[m])
  {
    if order == [] then kv
    else
      var m := order[|order| - 1];
      assert IsScore(scores[m]);
      AddOne(AddAll(kv, name, order[..|order| - 1], scores), name, m, EncodeScore(scores[m]))
  }

  lemma EncodedCanonical(bits: nat)
    requires IsScore(bits)
    ensures Canonical(EncodeScore(bits))
  {
    ScoreRound(bits);
    var d := DecodeScore(EncodeScore(bits));
    ScoreOrder(d, bits);
  }

  lemma {:induction false} AddAllAgrees(kv: Kv, name: Bytes, order: seq<Bytes>, scores: map<Bytes, nat>, other: Bytes)
    requires Unmixed(name, other) && Agree(kv, name) && Agree(kv, other)
    requires forall m :: m in order ==> m in scores && IsScore(scores[m])
    ensures Agree(AddAll(kv, name, order, scores), name) && Agree(AddAll(kv, name, order, scores), other)
  {
    if order != [] {
      var front, m := order[..|order| - 1], order[|order| - 1];
      AddAllAgrees(kv, name, front, scores, other);
      EncodedCanonical(scores[m]);
      AddOneAgrees(AddAll(kv, name, front, scores), name, m, EncodeScore(scores[m]), name);
      AddOneAgrees(AddAll(kv, name, front, scores), name, m, EncodeScore(scores[m]), other);
    }
  }

  /** Afterwards exactly the given members have their new scores. */
  lemma {:induction false} AddAllScores(kv: Kv, name: Bytes, order: seq<Bytes>, scores: map<Bytes, nat>, other: Bytes,
      n: Bytes)
    requires Unmixed(name, other) && Agree(kv, name)
    requires forall m :: m in order ==> m in scores && IsScore(scores[m])
    ensures ScoreOf(AddAll(kv, name, order, scores), other, n) ==
              if other == name && n in order then Some(EncodeScore(scores[n])) else ScoreOf(kv, other, n)
  {
    if order != [] {
      var front, m := order[..|order| - 1], order[|order| - 1];
      AddAllScores(kv, name, front, scores, other, n);
      AddAllAgrees(kv, name, front, scores, name);
      EncodedCanonical(scores[m]);
      AddOneMember(AddAll(kv, name, front, scores), name, m, EncodeScore(scores[m]), other, n);
      assert order == front + [m];
    }
  }

  ghost function RemoveAll(kv: Kv, name: Bytes, members: seq<Bytes>): Kv {
    if members == [] then kv else RemoveOne(RemoveAll(kv, name, members[..|members| - 1]), name, members[|members| - 1])
  }

  lemma {:induction false} RemoveAllAgrees(kv: Kv, name: Bytes, members: seq<Bytes>, other: Bytes)
    requires Unmixed(name, other) && Agree(kv, name) && Agree(kv, other)
    ensures Agree(RemoveAll(kv, name, members), name) && Agree(RemoveAll(kv, name, members), other)
  {
    if members != [] {
      var front, m := members[..|members| - 1], members[|members| - 1];
      RemoveAllAgrees(kv, name, front, other);
      RemoveOneAgrees(RemoveAll(kv, name, front), name, m, name);
      RemoveOneAgrees(RemoveAll(kv, name, front), name, m, other);
    }
  }

  lemma {:induction false} RemoveAllScores(kv: Kv, name: Bytes, members: seq<Bytes>, other: Bytes, n: Bytes)
    requires Unmixed(name, other) && Agree(kv, name)
    ensures ScoreOf(RemoveAll(kv, name, members), other, n) ==
              if other == name && n in members then None else ScoreOf(kv, other, n)
  {
    if members != [] {
      var front, m := members[..|members| - 1], members[|members| - 1];
      RemoveAllScores(kv, name, front, other, n);
      RemoveAllAgrees(kv, name, front, name);
      RemoveOneMember(RemoveAll(kv, name, front), name, m, other, n);
      assert members == front + [m];
    }
  }

  // ---------------------------------------------------------------- what the methods do, step by step

  /** The score given last to a member. */
  ghost function LastScore(pairs: seq<(nat, Bytes)>, m: Bytes): Option<nat> {
    if pairs == [] then None
    else if pairs[|pairs| - 1].1 == m then Some(pairs[|pairs| - 1].0)
    else LastScore(pairs[..|pairs| - 1], m)
  }

  /** Pair `i` is the last one that names its member. */
  ghost predicate LastFor(pairs: seq<(nat, Bytes)>, i: nat) {
    i < |pairs| && forall j :: i < j < |pairs| ==> pairs[j].1 != pairs[i].1
  }

  lemma {:induction false} LastScoreIs(pairs: seq<(nat, Bytes)>, i: nat)
    requires LastFor(pairs, i)
    ensures LastScore(pairs, pairs[i].1) == Some(pairs[i].0)
  {
    var n := |pairs| - 1;
    if i < n {
      assert forall j :: i < j < n ==> pairs[..n][j] == pairs[j];
      LastScoreIs(pairs[..n], i);
    }
  }

  ghost predicate Given(pairs: seq<(nat, Bytes)>, m: Bytes) {
    exists i :: 0 <= i < |pairs| && pairs[i].1 == m
  }

  lemma {:induction false} NoLastScore(pairs: seq<(nat, Bytes)>, m: Bytes)
    requires !Given(pairs, m)
    ensures LastScore(pairs, m) == None
  {
    if pairs != [] {
      var front := pairs[..|pairs| - 1];
      assert forall i :: 0 <= i < |front| ==> front[i] == pairs[i];
      NoLastScore(front, m);
    }
  }

  /** `order` lists the members of `pairs` once, `scores` holds the last score of each. */
  ghost predicate Gathered(pairs: seq<(nat, Bytes)>, order: seq<Bytes>, scores: map<Bytes, nat>) {
    && (forall i, j :: 0 <= i < j < |order| ==> order[i] != order[j])
    && (forall m :: m in order <==> m in scores)
    && forall m :: m in scores <==> LastScore(pairs, m).Some?
  }

  ghost predicate LastScores(pairs: seq<(nat, Bytes)>, scores: map<Bytes, nat>) {
    forall m :: m in scores ==> LastScore(pairs, m) == Some(scores[m]) && IsScore(scores[m])
  }

  method Gather(pairs: seq<(nat, Bytes)>) returns (order: seq<Bytes>, scores: map<Bytes, nat>)
    requires forall i :: 0 <= i < |pairs| ==> IsScore(pairs[i].0)
    ensures Gathered(pairs, order, scores) && LastScores(pairs, scores)
  {
    order, scores := [], map[];
    for i := 0 to |pairs|
      invariant Gathered(pairs[..i], order, scores) && LastScores(pairs[..i], scores)
    {
      var (s, m) := pairs[i];
      assert pairs[..i + 1][..i] == pairs[..i];
      if m !in scores { order := order + [m]; }
      scores := scores[m := s];
    }
    assert pairs[..|pairs|] == pairs;
  }

  /** What the batch does for one member is what `AddOne` does. */
  lemma AddOps(kv: Kv, ops: seq<Op>, name: Bytes, m: Bytes, enc: Bytes, was: Option<Bytes>, ops': seq<Op>)
    requires ScoreOf(ApplyAll(kv, ops), name, m) == was
    requires var del := if was.Some? && was.value != enc then [Del(ScoreKey(name, was.value, m))] else [];
             ops' == ops + del + [Set(ValKey(name, m), enc), Set(ScoreKey(name, enc, m), [])]
    ensures ApplyAll(kv, ops') == AddOne(ApplyAll(kv, ops), name, m, enc)
  {
    var del := if was.Some? && was.value != enc then [Del(ScoreKey(name, was.value, m))] else [];
    var a, b := Set(ValKey(name, m), enc), Set(ScoreKey(name, enc, m), []);
    if del != [] { ApplySnoc(kv, ops, del[0]); } else { assert ops + del == ops; }
    ApplySnoc(kv, ops + del, a);
    ApplySnoc(kv, ops + del + [a], b);
    assert ops' == ops + del + [a] + [b];
  }

  lemma RemoveOps(kv: Kv, ops: seq<Op>, name: Bytes, m: Bytes, enc: Bytes, ops': seq<Op>)
    requires Agree(ApplyAll(kv, ops), name) && |enc| == 8
    requires ScoreOf(ApplyAll(kv, ops), name, m) == None || ScoreOf(ApplyAll(kv, ops), name, m) == Some(enc)
    requires ops' == ops + [Del(ScoreKey(name, enc, m)), Del(ValKey(name, m))]
    ensures ApplyAll(kv, ops') == RemoveOne(ApplyAll(kv, ops), name, m)
  {
    var cur := ApplyAll(kv, ops);
    var a, b := Del(ScoreKey(name, enc, m)), Del(ValKey(name, m));
    ApplySnoc(kv, ops, a);
    ApplySnoc(kv, ops + [a], b);
    assert ops' == ops + [a] + [b];
    assert PairOk(cur, name, enc, m);
    assert ApplyAll(kv, ops') == (cur - {ScoreKey(name, enc, m)}) - {ValKey(name, m)};
  }

  // ---------------------------------------------------------------- the operations

  lemma SameScore(was: Bytes, bits: nat)
    requires Canonical(was) && IsScore(bits)
    ensures Num(DecodeScore(was)) != Num(bits) <==> was != EncodeScore(bits)
  {
    ScoreOrder(DecodeScore(was), bits);
  }

  /** The ops for one more member of a batch. */
  lemma AddStep(kv: Kv, ops: seq<Op>, name: Bytes, order: seq<Bytes>, i: nat, scores: map<Bytes, nat>, ops': seq<Op>)
    requires Agree(kv, name) && i < |order|
        && (forall m :: m in order ==> m in scores && IsScore(scores[m]))
    requires forall a, b :: 0 <= a < b < |order| ==> order[a] != order[b]
    requires ApplyAll(kv, ops) == AddAll(kv, name, order[..i], scores)
    requires var m := order[i];
             assert IsScore(scores[m]);
             var enc, was := EncodeScore(scores[m]), ScoreOf(kv, name, m);
             var del := if was.Some? && was.value != enc then [Del(ScoreKey(name, was.value, m))] else [];
             ops' == ops + del + [Set(ValKey(name, m), enc), Set(ScoreKey(name, enc, m), [])]
    ensures ApplyAll(kv, ops') == AddAll(kv, name, order[..i + 1], scores)
  {
    var m := order[i];
    AddAllScores(kv, name, order[..i], scores, name, m);
    AddOps(kv, ops, name, m, EncodeScore(scores[m]), ScoreOf(kv, name, m), ops');
    assert order[..i + 1][..i] == order[..i];
  }

  class Sets {
    var kv: Kv

    constructor ()
      ensures kv == map[] && forall name :: Agree(kv, name)
    {
      kv := map[];
      forall name ensures Agree(map[], name) { UnusedAgrees(map[], name); }
    }

    /** Adds members or changes their scores, in one batch; of a member given twice the last score
        counts. Returns how many members are new. */
    method ZAddMulti(name: Bytes, pairs: seq<(nat, Bytes)>) returns (added: nat)
      requires Agree(kv, name) && forall i :: 0 <= i < |pairs| ==> IsScore(pairs[i].0)
      modifies this
      ensures forall other :: Unmixed(name, other) && Agree(old(kv), other) ==> Agree(kv, other)
      ensures forall other, m :: Unmixed(name, other) && (other != name || !Given(pairs, m)) ==>
                ScoreOf(kv, other, m) == ScoreOf(old(kv), other, m)
      ensures forall i: nat :: LastFor(pairs, i) ==> HasScore(kv, name, pairs[i].1, pairs[i].0)
      ensures exists order :: ListsMembers(pairs, order) && added == CountNew(old(kv), name, order)
      ensures added == |set p | p in pairs && ScoreOf(old(kv), name, p.1).None? :: p.1|
    {
      var order, scores := Gather(pairs);
      var ops: seq<Op> := [];
      added := 0;
      for i := 0 to |order|
        invariant kv == old(kv) && ApplyAll(kv, ops) == AddAll(kv, name, order[..i], scores)
        invariant added == CountNew(kv, name, order[..i])
      {
        var m := order[i];
        assert m in order && MemberOk(kv, name, m);
        var score := scores[m];
        var was := ScoreOf(kv, name, m);
        var del: seq<Op> := [];
        if was.None? {
          added := added + 1;
        } else {
          SameScore(was.value, score);
          if Num(DecodeScore(was.value)) != Num(score) { del := [Del(ScoreKey(name, was.value, m))]; }
        }
        var more := ops + del + [Set(ValKey(name, m), EncodeScore(score)),
            Set(ScoreKey(name, EncodeScore(score), m), [])];
        AddStep(kv, ops, name, order, i, scores, more);
        CountStep(kv, name, order, i);
        ops := more;
      }
      assert order[..|order|] == order;
      AddedAll(kv, name, pairs, order, scores);
      forall i: nat | LastFor(pairs, i) ensures LastScore(pairs, pairs[i].1) == Some(pairs[i].0) {
        LastScoreIs(pairs, i);
      }
      forall m | !Given(pairs, m) ensures LastScore(pairs, m).None? { NoLastScore(pairs, m); }
      CountsNew(kv, name, pairs, order);
      kv := ApplyAll(kv, ops);
    }

    /** Removes members, in one batch. Returns how many of the names given were members; a name given
        twice is counted twice. */
    method ZRem(name: Bytes, members: seq<Bytes>) returns (removed: nat)
      requires Agree(kv, name)
      modifies this
      ensures forall other :: Unmixed(name, other) && Agree(old(kv), other) ==> Agree(kv, other)
      ensures forall other, m :: Unmixed(name, other) ==>
                ScoreOf(kv, other, m) == if other == name && m in members then None else ScoreOf(old(kv), other, m)
      ensures removed == CountPresent(old(kv), name, members)
    {
      var ops: seq<Op> := [];
      removed := 0;
      for i := 0 to |members|
        invariant kv == old(kv) && ApplyAll(kv, ops) == RemoveAll(kv, name, members[..i])
        invariant removed == CountPresent(kv, name, members[..i])
      {
        var m := members[i];
        RemoveStep(kv, ops, name, members, i);
        var was := ScoreOf(kv, name, m);
        if was.Some? {
          if |was.value| == 8 { ops := ops + [Del(ScoreKey(name, was.value, m))]; }
          ops := ops + [Del(ValKey(name, m))];
          removed := removed + 1;
        }
      }
      assert members[..|members|] == members;
      RemovedAll(kv, name, members);
      kv := ApplyAll(kv, ops);
    }

    /** The members with a score from `min` to `max`, each once, by score and then by member. */
    method ZRangeByScore(name: Bytes, min: nat, max: nat, rows: seq<Row>) returns (members: seq<Bytes>)
      requires Agree(kv, name) && IsScore(min) && IsScore(max)
      requires RowsOf(kv, ScoreKey(name, EncodeScore(min), []), rows)
      ensures forall m :: m in members <==> InRange(kv, name, m, min, max)
      ensures AllRanked(kv, name, members)
    {
      var prefix := ScorePrefix(name);
      members := [];
      var j := 0;
      while j < |rows|
        invariant Taken(name, rows, j, max) && members == Collected(name, rows, j, max)
      {
        var k := rows[j].key;
        if !(prefix <= k) { break; }
        if !rows[j].deleted { AtLeastMin(kv, name, min, rows, j); }
        if |k| >= |prefix| + 9 && !rows[j].deleted {
          var score := DecodeScore(k[|prefix|..|prefix| + 8]);
          if Num(score) > Num(max) { break; }
          if Num(score) >= Num(min) { members := members + [k[|prefix| + 9..]]; }
        }
        j := j + 1;
      }
      forall m ensures m in members <==> InRange(kv, name, m, min, max) { RangeExact(kv, name, min, max, rows, j, m); }
      CollectedRanked(kv, name, ScoreKey(name, EncodeScore(min), []), rows, j, max);
    }

    method ZScore(name: Bytes, m: Bytes) returns (r: Option<nat>)
      requires Agree(kv, name)
      ensures r.Some? <==> ScoreOf(kv, name, m).Some?
      ensures r.Some? ==> HasScore(kv, name, m, r.value)
    {
      assert MemberOk(kv, name, m);
      var v := ScoreOf(kv, name, m);
      if v.None? || |v.value| != 8 { return None; }
      return Some(DecodeScore(v.value));
    }
  }

  // ---------------------------------------------------------------- ranges by score

  datatype Row = Row(key: Key, deleted: bool)

  ghost predicate LiveAt(rows: seq<Row>, r: nat, k: Key) {
    r < |rows| && rows[r] == Row(k, false)
  }

  /** What a merged iterator gives from `from` on: ascending keys, and the live ones among them are
      the live keys of the store. */
  ghost predicate RowsOf(kv: Kv, from: Key, rows: seq<Row>) {
    && (forall i, j :: 0 <= i < j < |rows| ==> Lt(rows[i].key, rows[j].key))
    && (forall i :: 0 <= i < |rows| ==> !Lt(rows[i].key, from))
    && (forall i :: 0 <= i < |rows| && !rows[i].deleted ==> rows[i].key in kv)
    && forall k :: k in kv && !Lt(k, from) ==> exists r :: LiveAt(rows, r, k)
  }

  ghost predicate InRange(kv: Kv, name: Bytes, m: Bytes, min: nat, max: nat) {
    var enc := ScoreOf(kv, name, m);
    enc.Some? && |enc.value| == 8 && Num(min) <= Num(DecodeScore(enc.value)) <= Num(max)
  }

  /** By score, and by member where the scores are equal. */
  ghost predicate Ranked(kv: Kv, name: Bytes, m: Bytes, n: Bytes) {
    var a, b := ScoreOf(kv, name, m), ScoreOf(kv, name, n);
    a.Some? && b.Some? && |a.value| == 8 && |b.value| == 8 &&
    var x, y := Num(DecodeScore(a.value)), Num(DecodeScore(b.value));
    x < y || (x == y && Lt(m, n))
  }

  ghost function EncAt(name: Bytes, k: Key): Bytes
    requires |k| >= |ScorePrefix(name)| + 9
  {
    var p := |ScorePrefix(name)|;
    k[p..p + 8]
  }

  ghost function MemberAt(name: Bytes, k: Key): Bytes
    requires |k| >= |ScorePrefix(name)| + 9
  {
    k[|ScorePrefix(name)| + 9..]
  }

  lemma KeyParts(kv: Kv, name: Bytes, k: Key)
    requires Agree(kv, name) && k in kv && ScorePrefix(name) <= k
    ensures |k| >= |ScorePrefix(name)| + 9
    ensures k == ScoreKey(name, EncAt(name, k), MemberAt(name, k))
    ensures ScoreOf(kv, name, MemberAt(name, k)) == Some(EncAt(name, k)) && Canonical(EncAt(name, k))
  {
    assert Tidy(kv, name, k);
    var p := |ScorePrefix(name)|;
    assert k == k[..p] + k[p..p + 8] + [k[p + 8]] + k[p + 9..];
    assert PairOk(kv, name, EncAt(name, k), MemberAt(name, k)) && MemberOk(kv, name, MemberAt(name, k));
  }

  /** Score keys of one set sort by encoded score, then by member. */
  lemma ScoreKeyOrder(name: Bytes, enc: Bytes, m: Bytes, enc': Bytes, n: Bytes)
    requires |enc| == |enc'|
    ensures Lt(ScoreKey(name, enc, m), ScoreKey(name, enc', n)) <==> Lt(enc, enc') || (enc == enc' && Lt(m, n))
  {
    var p := ScorePrefix(name);
    assert ScoreKey(name, enc, m) == p + (enc + ([0] + m)) && ScoreKey(name, enc', n) == p + (enc' + ([0] + n));
    LtConcat(p, enc + ([0] + m), p, enc' + ([0] + n));
    LtIrreflexive(p);
    LtConcat(enc, [0] + m, enc', [0] + n);
    LtConcat([0], m, [0], n);
    LtIrreflexive([0]);
  }

  lemma CanonicalOrder(a: Bytes, b: Bytes)
    requires Canonical(a) && Canonical(b)
    ensures Lt(a, b) <==> Num(DecodeScore(a)) < Num(DecodeScore(b))
    ensures a == b <==> Num(DecodeScore(a)) == Num(DecodeScore(b))
  {
    ScoreOrder(DecodeScore(a), DecodeScore(b));
  }

  /** The scan has taken the rows before `j`: they belong to the set, with scores up to `max`. */
  ghost predicate Taken(name: Bytes, rows: seq<Row>, j: nat, max: nat) {
    && j <= |rows|
    && (forall r :: 0 <= r < j ==> ScorePrefix(name) <= rows[r].key)
    && forall r :: 0 <= r < j && !rows[r].deleted ==>
         |rows[r].key| >= |ScorePrefix(name)| + 9 && Num(DecodeScore(EncAt(name, rows[r].key))) <= Num(max)
  }

  /** The members of the live rows, in order. */
  ghost function Collected(name: Bytes, rows: seq<Row>, j: nat, max: nat): seq<Bytes>
    requires Taken(name, rows, j, max)
  {
    if j == 0 then []
    else
      var before := Collected(name, rows, j - 1, max);
      if rows[j - 1].deleted then before else before + [MemberAt(name, rows[j - 1].key)]
  }

  lemma {:induction false} CollectedFrom(name: Bytes, rows: seq<Row>, j: nat, max: nat)
    requires Taken(name, rows, j, max)
    ensures forall m :: m in Collected(name, rows, j, max) <==>
        exists r :: 0 <= r < j && !rows[r].deleted && MemberAt(name, rows[r].key) == m
  {
    if j > 0 {
      CollectedFrom(name, rows, j - 1, max);
      forall m ensures m in Collected(name, rows, j, max) <==>
          exists r :: 0 <= r < j && !rows[r].deleted && MemberAt(name, rows[r].key) == m {
        if m in Collected(name, rows, j - 1, max) {
          var r :| 0 <= r < j - 1 && !rows[r].deleted && MemberAt(name, rows[r].key) == m;
          assert 0 <= r < j;
        }
      }
    }
  }

  lemma RowsRanked(kv: Kv, name: Bytes, from: Key, rows: seq<Row>, r: nat, s: nat)
    requires Agree(kv, name) && RowsOf(kv, from, rows) && r < s < |rows| && !rows[r].deleted && !rows[s].deleted
    requires ScorePrefix(name) <= rows[r].key && ScorePrefix(name) <= rows[s].key
    ensures |rows[r].key| >= |ScorePrefix(name)| + 9 && |rows[s].key| >= |ScorePrefix(name)| + 9
    ensures Ranked(kv, name, MemberAt(name, rows[r].key), MemberAt(name, rows[s].key))
  {
    var k, l := rows[r].key, rows[s].key;
    KeyParts(kv, name, k);
    KeyParts(kv, name, l);
    ScoreKeyOrder(name, EncAt(name, k), MemberAt(name, k), EncAt(name, l), MemberAt(name, l));
    CanonicalOrder(EncAt(name, k), EncAt(name, l));
  }

  ghost predicate AllRanked(kv: Kv, name: Bytes, c: seq<Bytes>) {
    forall a, b :: 0 <= a < b < |c| ==> Ranked(kv, name, c[a], c[b])
  }

  lemma {:induction false} CollectedRanked(kv: Kv, name: Bytes, from: Key, rows: seq<Row>, j: nat, max: nat)
    requires Agree(kv, name) && RowsOf(kv, from, rows) && Taken(name, rows, j, max)
    ensures AllRanked(kv, name, Collected(name, rows, j, max))
  {
    if j > 0 {
      CollectedRanked(kv, name, from, rows, j - 1, max);
      if !rows[j - 1].deleted { OneMoreRanked(kv, name, from, rows, j, max, Collected(name, rows, j - 1, max)); }
    }
  }

  lemma OneMoreRanked(kv: Kv, name: Bytes, from: Key, rows: seq<Row>, j: nat, max: nat, before: seq<Bytes>)
    requires Agree(kv, name) && RowsOf(kv, from, rows) && Taken(name, rows, j, max) && j > 0 && !rows[j - 1].deleted
    requires before == Collected(name, rows, j - 1, max) && AllRanked(kv, name, before)
    ensures AllRanked(kv, name, before + [MemberAt(name, rows[j - 1].key)])
  {
    var last := MemberAt(name, rows[j - 1].key);
    forall a: nat | a < |before| ensures Ranked(kv, name, before[a], last) {
      EarlierRanked(kv, name, from, rows, j, max, before, a);
    }
    RankedSnoc(kv, name, before, last);
  }

  lemma EarlierRanked(kv: Kv, name: Bytes, from: Key, rows: seq<Row>, j: nat, max: nat, before: seq<Bytes>, a: nat)
    requires Agree(kv, name) && RowsOf(kv, from, rows) && Taken(name, rows, j, max) && j > 0 && !rows[j - 1].deleted
    requires before == Collected(name, rows, j - 1, max) && a < |before|
    ensures Ranked(kv, name, before[a], MemberAt(name, rows[j - 1].key))
  {
    var r := CollectedRow(name, rows, j - 1, max, before, a);
    RowsRanked(kv, name, from, rows, r, j - 1);
  }

  lemma CollectedRow(name: Bytes, rows: seq<Row>, j: nat, max: nat, c: seq<Bytes>, a: nat) returns (r: nat)
    requires Taken(name, rows, j, max) && c == Collected(name, rows, j, max) && a < |c|
    ensures r < j && !rows[r].deleted && ScorePrefix(name) <= rows[r].key && MemberAt(name, rows[r].key) == c[a]
  {
    CollectedFrom(name, rows, j, max);
    assert c[a] in c;
    r :| 0 <= r < j && !rows[r].deleted && MemberAt(name, rows[r].key) == c[a];
  }

  lemma RankedSnoc(kv: Kv, name: Bytes, before: seq<Bytes>, last: Bytes)
    requires AllRanked(kv, name, before) && forall a :: 0 <= a < |before| ==> Ranked(kv, name, before[a], last)
    ensures AllRanked(kv, name, before + [last])
  {}

  /** The scan stopped at row `j` rightly: no row, a key of something else, or a score above `max`. */
  ghost predicate StopsAt(name: Bytes, rows: seq<Row>, j: nat, max: nat) {
    j < |rows| && ScorePrefix(name) <= rows[j].key ==>
      !rows[j].deleted && |rows[j].key| >= |ScorePrefix(name)| + 9
          && Num(DecodeScore(EncAt(name, rows[j].key))) > Num(max)
  }

  lemma NotPast(kv: Kv, name: Bytes, min: nat, max: nat, rows: seq<Row>, j: nat, r: nat, m: Bytes)
    requires Agree(kv, name) && IsScore(min) && RowsOf(kv, ScoreKey(name, EncodeScore(min), []), rows)
    requires InRange(kv, name, m, min, max) && LiveAt(rows, r, ScoreKey(name, ScoreOf(kv, name, m).value, m))
    requires StopsAt(name, rows, j, max)
    ensures r < j
  {
    if j <= r {
      var p, k := ScorePrefix(name), rows[r].key;
      var from, l := ScoreKey(name, EncodeScore(min), []), rows[j].key;
      assert p <= k && p <= from;
      PrefixNotGreater(p, from);
      NotLtTrans(l, from, p);
      if j < r { LtAsym(l, k); } else { LtIrreflexive(k); }
      PrefixBetween(p, l, k);
      KeyParts(kv, name, l);
      assert MemberOk(kv, name, m);
      var enc := ScoreOf(kv, name, m).value;
      ScoreKeyOrder(name, enc, m, EncAt(name, l), MemberAt(name, l));
      CanonicalOrder(enc, EncAt(name, l));
    }
  }

  lemma RangeAll(kv: Kv, name: Bytes, min: nat, max: nat, rows: seq<Row>, j: nat, m: Bytes)
    requires Agree(kv, name) && IsScore(min) && RowsOf(kv, ScoreKey(name, EncodeScore(min), []), rows)
    requires StopsAt(name, rows, j, max) && InRange(kv, name, m, min, max)
    ensures exists r :: 0 <= r < j && LiveAt(rows, r, ScoreKey(name, ScoreOf(kv, name, m).value, m))
  {
    var enc := ScoreOf(kv, name, m).value;
    assert MemberOk(kv, name, m) && PairOk(kv, name, enc, m);
    ScoreKeyOrder(name, enc, m, EncodeScore(min), []);
    ScoreOrder(DecodeScore(enc), min);
    var r :| LiveAt(rows, r, ScoreKey(name, enc, m));
    NotPast(kv, name, min, max, rows, j, r, m);
  }

  lemma RangeExact(kv: Kv, name: Bytes, min: nat, max: nat, rows: seq<Row>, j: nat, m: Bytes)
    requires Agree(kv, name) && IsScore(min) && RowsOf(kv, ScoreKey(name, EncodeScore(min), []), rows)
    requires Taken(name, rows, j, max) && StopsAt(name, rows, j, max)
    ensures m in Collected(name, rows, j, max) <==> InRange(kv, name, m, min, max)
  {
    CollectedFrom(name, rows, j, max);
    if m in Collected(name, rows, j, max) {
      var r :| 0 <= r < j && !rows[r].deleted && MemberAt(name, rows[r].key) == m;
      AtLeastMin(kv, name, min, rows, r);
    }
    if InRange(kv, name, m, min, max) {
      assert MemberOk(kv, name, m);
      var k := ScoreKey(name, ScoreOf(kv, name, m).value, m);
      RangeAll(kv, name, min, max, rows, j, m);
      var r :| 0 <= r < j && LiveAt(rows, r, k);
      assert MemberAt(name, k) == m;
    }
  }

  lemma AtLeastMin(kv: Kv, name: Bytes, min: nat, rows: seq<Row>, r: nat)
    requires Agree(kv, name) && IsScore(min) && RowsOf(kv, ScoreKey(name, EncodeScore(min), []), rows)
    requires r < |rows| && !rows[r].deleted && ScorePrefix(name) <= rows[r].key
    ensures |rows[r].key| >= |ScorePrefix(name)| + 9
    ensures ScoreOf(kv, name, MemberAt(name, rows[r].key)) == Some(EncAt(name, rows[r].key))
    ensures Num(min) <= Num(DecodeScore(EncAt(name, rows[r].key)))
  {
    var k := rows[r].key;
    KeyParts(kv, name, k);
    ScoreKeyOrder(name, EncAt(name, k), MemberAt(name, k), EncodeScore(min), []);
    ScoreOrder(DecodeScore(EncAt(name, k)), min);
  }

  /** `order` lists the members of `pairs`, each once. */
  ghost predicate ListsMembers(pairs: seq<(nat, Bytes)>, order: seq<Bytes>) {
    && (forall i, j :: 0 <= i < j < |order| ==> order[i] != order[j])
    && forall m :: m in order <==> LastScore(pairs, m).Some?
  }

  ghost function CountNew(kv: Kv, name: Bytes, order: seq<Bytes>): nat {
    if order == [] then 0
    else CountNew(kv, name, order[..|order| - 1]) + if ScoreOf(kv, name, order[|order| - 1]).None? then 1 else 0
  }

  /** The count is the number of given members that were not there. */
  lemma CountsNew(kv: Kv, name: Bytes, pairs: seq<(nat, Bytes)>, order: seq<Bytes>)
    requires ListsMembers(pairs, order)
    ensures CountNew(kv, name, order) == |set p | p in pairs && ScoreOf(kv, name, p.1).None? :: p.1|
  {
    NewOnes(kv, name, order);
    var a := set m | m in order && ScoreOf(kv, name, m).None?;
    var b := set p | p in pairs && ScoreOf(kv, name, p.1).None? :: p.1;
    forall m ensures m in a <==> m in b {
      if m in a { SomePair(pairs, m); }
      if m in b {
        var p :| p in pairs && p.1 == m;
        var i :| 0 <= i < |pairs| && pairs[i] == p;
        if LastScore(pairs, m).None? { HasLastScore(pairs, i); }
      }
    }
    assert a == b;
  }

  lemma {:induction false} SomePair(pairs: seq<(nat, Bytes)>, m: Bytes)
    requires LastScore(pairs, m).Some?
    ensures exists p :: p in pairs && p.1 == m
  {
    var n := |pairs| - 1;
    if pairs[n].1 == m {
      assert pairs[n] in pairs;
    } else {
      SomePair(pairs[..n], m);
      var p :| p in pairs[..n] && p.1 == m;
      assert p in pairs;
    }
  }

  lemma {:induction false} HasLastScore(pairs: seq<(nat, Bytes)>, i: nat)
    requires i < |pairs|
    ensures LastScore(pairs, pairs[i].1).Some?
  {
    var n := |pairs| - 1;
    if i < n {
      assert pairs[..n][i] == pairs[i];
      HasLastScore(pairs[..n], i);
    }
  }

  lemma {:induction false} NewOnes(kv: Kv, name: Bytes, order: seq<Bytes>)
    requires forall i, j :: 0 <= i < j < |order| ==> order[i] != order[j]
    ensures CountNew(kv, name, order) == |set m | m in order && ScoreOf(kv, name, m).None?|
  {
    if order == [] {
      assert (set m | m in order && ScoreOf(kv, name, m).None?) == {};
    } else {
      NewOnes(kv, name, order[..|order| - 1]);
      OneMoreNew(kv, name, order, order[..|order| - 1], order[|order| - 1]);
    }
  }

  lemma OneMoreNew(kv: Kv, name: Bytes, order: seq<Bytes>, front: seq<Bytes>, last: Bytes)
    requires order == front + [last] && last !in front
    ensures |set m | m in order && ScoreOf(kv, name, m).None?| ==
              |set m | m in front && ScoreOf(kv, name, m).None?| + if ScoreOf(kv, name, last).None? then 1 else 0
  {
    var a := set m | m in front && ScoreOf(kv, name, m).None?;
    var b := set m | m in order && ScoreOf(kv, name, m).None?;
    assert b == if ScoreOf(kv, name, last).None? then a + {last} else a;
  }

  ghost function CountPresent(kv: Kv, name: Bytes, members: seq<Bytes>): nat {
    if members == [] then 0
    else CountPresent(kv, name, members[..|members| - 1]) + if ScoreOf(kv, name, members[|members| - 1]).Some? then 1
        else 0
  }

  /** The members among the names given. */
  ghost function Present(kv: Kv, name: Bytes, members: seq<Bytes>): set<Bytes> {
    set m | m in members && ScoreOf(kv, name, m).Some?
  }

  /** Some member is given twice. */
  ghost predicate GivenTwice(kv: Kv, name: Bytes, members: seq<Bytes>) {
    exists i, j :: 0 <= i < j < |members| && members[i] == members[j] && ScoreOf(kv, name, members[i]).Some?
  }

  /** The count is the number of members that go away if and only if none of them is given twice. */
  lemma {:induction false} CountsRemovedIff(kv: Kv, name: Bytes, members: seq<Bytes>)
    ensures CountPresent(kv, name, members) >= |Present(kv, name, members)|
    ensures CountPresent(kv, name, members) == |Present(kv, name, members)| <==> !GivenTwice(kv, name, members)
  {
    if members == [] {
      assert Present(kv, name, members) == {};
    } else {
      var n := |members| - 1;
      CountsRemovedIff(kv, name, members[..n]);
      PresentMore(kv, name, members);
      TwiceMore(kv, name, members);
    }
  }

  lemma PresentMore(kv: Kv, name: Bytes, members: seq<Bytes>)
    requires members != []
    ensures var front, last := members[..|members| - 1], members[|members| - 1];
            |Present(kv, name, members)| ==
              |Present(kv, name, front)| + if ScoreOf(kv, name, last).Some? && last !in front then 1 else 0
  {
    var front, last := members[..|members| - 1], members[|members| - 1];
    assert members == front + [last];
    if ScoreOf(kv, name, last).Some? {
      assert Present(kv, name, members) == Present(kv, name, front) + {last};
    } else {
      assert Present(kv, name, members) == Present(kv, name, front);
    }
  }

  lemma TwiceMore(kv: Kv, name: Bytes, members: seq<Bytes>)
    requires members != []
    ensures var front, last := members[..|members| - 1], members[|members| - 1];
            GivenTwice(kv, name, members) <==>
              GivenTwice(kv, name, front) || (ScoreOf(kv, name, last).Some? && last in front)
  {
    var n := |members| - 1;
    var front, last := members[..n], members[n];
    if GivenTwice(kv, name, members) {
      var i, j :| 0 <= i < j < |members| && members[i] == members[j] && ScoreOf(kv, name, members[i]).Some?;
      if j < n { assert front[i] == front[j]; } else { assert front[i] == last; }
    }
    if GivenTwice(kv, name, front) {
      var i, j :| 0 <= i < j < |front| && front[i] == front[j] && ScoreOf(kv, name, front[i]).Some?;
      assert members[i] == members[j];
    }
    if ScoreOf(kv, name, last).Some? && last in front {
      var i :| 0 <= i < |front| && front[i] == last;
      assert members[i] == members[n];
    }
  }

  /** A set with one member: removing it by giving it twice counts two. */
  lemma RemovedTwice(name: Bytes, m: Bytes) returns (kv: Kv)
    ensures Agree(kv, name) && Present(kv, name, [m, m]) == {m} && CountPresent(kv, name, [m, m]) == 2
  {
    UnusedAgrees(map[], name);
    EncodedCanonical(0);
    kv := AddOne(map[], name, m, EncodeScore(0));
    AddOneAgrees(map[], name, m, EncodeScore(0), name);
    AddOneMember(map[], name, m, EncodeScore(0), name, m);
    assert [m, m][..1] == [m] && [m][..0] == [];
    assert CountPresent(kv, name, []) == 0 && CountPresent(kv, name, [m]) == 1;
  }

  lemma CountStep(kv: Kv, name: Bytes, order: seq<Bytes>, i: nat)
    requires i < |order|
    ensures CountNew(kv, name, order[..i + 1]) ==
        CountNew(kv, name, order[..i]) + if ScoreOf(kv, name, order[i]).None? then 1 else 0
  {
    assert order[..i + 1][..i] == order[..i];
  }

  lemma AddedAll(kv: Kv, name: Bytes, pairs: seq<(nat, Bytes)>, order: seq<Bytes>, scores: map<Bytes, nat>)
    requires Agree(kv, name) && Gathered(pairs, order, scores) && LastScores(pairs, scores)
    ensures forall other :: Unmixed(name, other) && Agree(kv, other) ==> Agree(AddAll(kv, name, order, scores), other)
    ensures forall other, m :: Unmixed(name, other) && (other != name || LastScore(pairs, m).None?) ==>
              ScoreOf(AddAll(kv, name, order, scores), other, m) == ScoreOf(kv, other, m)
    ensures forall m :: LastScore(pairs, m).Some? ==>
        HasScore(AddAll(kv, name, order, scores), name, m, LastScore(pairs, m).value)
    ensures ListsMembers(pairs, order)
  {
    var kv' := AddAll(kv, name, order, scores);
    forall other | Unmixed(name, other) && Agree(kv, other)
      ensures Agree(kv', other) { AddAllAgrees(kv, name, order, scores, other); }
    forall other, m | Unmixed(name, other) && (other != name || LastScore(pairs, m).None?)
      ensures ScoreOf(kv', other, m) == ScoreOf(kv, other, m) {
      AddAllScores(kv, name, order, scores, other, m);
    }
    forall m | LastScore(pairs, m).Some? ensures HasScore(kv', name, m, LastScore(pairs, m).value) {
      assert m in scores;
      AddAllScores(kv, name, order, scores, name, m);
    }
  }

  lemma RemoveStep(kv: Kv, ops: seq<Op>, name: Bytes, members: seq<Bytes>, i: nat)
    requires Agree(kv, name) && i < |members| && ApplyAll(kv, ops) == RemoveAll(kv, name, members[..i])
    ensures var was := ScoreOf(kv, name, members[i]);
            if was.Some? then
              |was.value| == 8 &&
              ApplyAll(kv, ops + [Del(ScoreKey(name, was.value, members[i]))] + [Del(ValKey(name, members[i]))])
                == RemoveAll(kv, name, members[..i + 1])
            else ApplyAll(kv, ops) == RemoveAll(kv, name, members[..i + 1])
    ensures CountPresent(kv, name, members[..i + 1]) ==
              CountPresent(kv, name, members[..i]) + if ScoreOf(kv, name, members[i]).Some? then 1 else 0
  {
    var m := members[i];
    assert members[..i + 1][..i] == members[..i];
    RemoveAllScores(kv, name, members[..i], name, m);
    RemoveAllAgrees(kv, name, members[..i], name);
    assert MemberOk(kv, name, m);
    var was := ScoreOf(kv, name, m);
    if was.Some? {
      RemoveOps(kv, ops, name, m, was.value, ops + [Del(ScoreKey(name, was.value, m))] + [Del(ValKey(name, m))]);
    }
  }

  lemma RemovedAll(kv: Kv, name: Bytes, members: seq<Bytes>)
    requires Agree(kv, name)
    ensures forall other :: Unmixed(name, other) && Agree(kv, other) ==> Agree(RemoveAll(kv, name, members), other)
    ensures forall other, m :: Unmixed(name, other) ==>
              ScoreOf(RemoveAll(kv, name, members), other, m) ==
                  if other == name && m in members then None else ScoreOf(kv, other, m)
  {
    var kv' := RemoveAll(kv, name, members);
    forall other | Unmixed(name, other) && Agree(kv, other)
      ensures Agree(kv', other) { RemoveAllAgrees(kv, name, members, other); }
    forall other, m | Unmixed(name, other)
      ensures ScoreOf(kv', other, m) == if other == name && m in members then None else ScoreOf(kv, other, m) {
      RemoveAllScores(kv, name, members, other, m);
    }
  }
}
