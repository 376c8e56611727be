/**
  Python's insertion-ordered `dict` whose values are lists, used through the
  idioms `d.setdefault(k, []).append(v)` and `d.pop(k)`. Both the coin
  deposits (`{(x, y): [values]}`) and the grouping of persons by cell
  (`{(x, y): [persons]}`) are such dictionaries, and their iteration order is
  observable: it breaks ties in "nearest deposit" and fixes the order in which
  cells are resolved. An association list keeps that order explicit.
 */
module Buckets {
  import opened Grid

  type Buckets<K, V> = seq<(K, seq<V>)>

  /** Coin deposits of the main engine, `{(x, y): [values]}`. */
  type Deposits = Buckets<Pos, int>

  /** No key is stored twice (true of every Python dict). */
  ghost predicate DistinctKeys<K, V>(b: Buckets<K, V>) {
    forall i, j :: 0 <= i < j < |b| ==> b[i].0 != b[j].0
  }

  /** The keys in iteration order, `list(d.keys())`. */
  function Keys<K, V>(b: Buckets<K, V>): (ks: seq<K>)
    ensures |ks| == |b|
    ensures forall i :: 0 <= i < |b| ==> ks[i] == b[i].0
  {
    if |b| == 0 then [] else Keys(b[..|b| - 1]) + [b[|b| - 1].0]
  }

  /** Position of `k` in the dictionary, if present. */
  function Find<K(==,!new), V>(b: Buckets<K, V>, k: K): (r: Option<nat>)
    ensures r.None? <==> forall i :: 0 <= i < |b| ==> b[i].0 != k
    ensures r.Some? ==> r.value < |b| && b[r.value].0 == k
    ensures r.Some? ==> forall i :: 0 <= i < r.value ==> b[i].0 != k
  {
    FindFrom(b, k, 0)
  }

  /** The scan of `Find` from position `i` on. */
  function FindFrom<K(==,!new), V>(b: Buckets<K, V>, k: K, i: nat): (r: Option<nat>)
    requires i <= |b|
    ensures r.None? <==> forall j :: i <= j < |b| ==> b[j].0 != k
    ensures r.Some? ==> i <= r.value < |b| && b[r.value].0 == k
    ensures r.Some? ==> forall j :: i <= j < r.value ==> b[j].0 != k
    decreases |b| - i
  {
    if i == |b| then None
    else if b[i].0 == k then Some(i)
    else FindFrom(b, k, i + 1)
  }

  /** `d.get(k)`. */
  function Get<K(==,!new), V>(b: Buckets<K, V>, k: K): Option<seq<V>> {
    match Find(b, k)
    case None => None
    case Some(i) => Some(b[i].1)
  }

  /** `d.get(k, [])`. */
  function Lookup<K(==,!new), V>(b: Buckets<K, V>, k: K): seq<V> {
    match Get(b, k)
    case None => []
    case Some(vs) => vs
  }

  /** `d.setdefault(k, []).append(v)`: an existing key keeps its place and
      gets `v` at the end of its list; a new key goes last with `[v]`. */
  function Push<K(==,!new), V>(b: Buckets<K, V>, k: K, v: V): (r: Buckets<K, V>)
    ensures Get(r, k) == Some(Lookup(b, k) + [v])
    ensures forall k' :: k' != k ==> Get(r, k') == Get(b, k')
    ensures Keys(r) == if Get(b, k).Some? then Keys(b) else Keys(b) + [k]
    ensures DistinctKeys(b) ==> DistinctKeys(r)
    ensures forall e :: e in r ==> e in b || e == (k, Lookup(b, k) + [v])
  {
    match Find(b, k)
    case None =>
      PushFresh(b, k, v);
      b + [(k, [v])]
    case Some(i) =>
      PushInPlace(b, k, v, i);
      b[i := (k, b[i].1 + [v])]
  }

  /** `Push` of a key not yet present: the entry goes last. */
  lemma PushFresh<K(!new), V>(b: Buckets<K, V>, k: K, v: V)
    requires Find(b, k).None?
    ensures var r := b + [(k, [v])];
      && Get(r, k) == Some(Lookup(b, k) + [v])
      && (forall k' :: k' != k ==> Get(r, k') == Get(b, k'))
      && Keys(r) == Keys(b) + [k]
      && (DistinctKeys(b) ==> DistinctKeys(r))
      && (forall e :: e in r ==> e in b || e == (k, Lookup(b, k) + [v]))
  {
    PushFreshFind(b, k, v);
    PushFreshEntries(b, k, v);
  }

  lemma PushFreshFind<K(!new), V>(b: Buckets<K, V>, k: K, v: V)
    requires Find(b, k).None?
    ensures Get(b + [(k, [v])], k) == Some(Lookup(b, k) + [v])
    ensures forall k' :: k' != k ==> Get(b + [(k, [v])], k') == Get(b, k')
  {
    var r := b + [(k, [v])];
    assert Find(r, k) == Some(|b|) by { FindAppend(b, (k, [v]), k); }
    assert Lookup(b, k) + [v] == [v];
    forall k' | k' != k ensures Find(r, k') == Find(b, k') {
      FindAppend(b, (k, [v]), k');
    }
  }

  lemma PushFreshEntries<K(!new), V>(b: Buckets<K, V>, k: K, v: V)
    requires Find(b, k).None?
    ensures Keys(b + [(k, [v])]) == Keys(b) + [k]
    ensures DistinctKeys(b) ==> DistinctKeys(b + [(k, [v])])
    ensures forall e :: e in b + [(k, [v])] ==> e in b || e == (k, Lookup(b, k) + [v])
  {
    var r := b + [(k, [v])];
    assert Lookup(b, k) + [v] == [v];
    forall e | e in r ensures e in b || e == (k, [v]) {
      var j :| 0 <= j < |r| && r[j] == e;
      if j < |b| { assert e == b[j]; }
    }
  }

  /** `Push` of a key present at position `i`: the entry stays in place. */
  lemma PushInPlace<K(!new), V>(b: Buckets<K, V>, k: K, v: V, i: nat)
    requires Find(b, k) == Some(i)
    ensures var r := b[i := (k, b[i].1 + [v])];
      && Get(r, k) == Some(Lookup(b, k) + [v])
      && (forall k' :: k' != k ==> Get(r, k') == Get(b, k'))
      && Keys(r) == Keys(b)
      && (DistinctKeys(b) ==> DistinctKeys(r))
      && (forall e :: e in r ==> e in b || e == (k, Lookup(b, k) + [v]))
  {
    var r := b[i := (k, b[i].1 + [v])];
    assert Find(r, k) == Some(i) by { FindUnique(r, k, i); }
    assert Lookup(b, k) == b[i].1;
    assert forall e :: e in r ==> e in b || e == (k, b[i].1 + [v]) by {
      forall e | e in r ensures e in b || e == (k, b[i].1 + [v]) {
        var j :| 0 <= j < |r| && r[j] == e;
        if j != i { assert e == b[j]; }
      }
    }
    assert forall k' :: k' != k ==> Find(r, k') == Find(b, k') by {
      forall k' | k' != k ensures Find(r, k') == Find(b, k') {
        FindUpdate(b, i, (k, b[i].1 + [v]), k');
      }
    }
  }

  /** `d.pop(k, None)` without the returned value: the entry for `k` goes,
      every other entry keeps its value and relative order. */
  function Pop<K(==,!new), V>(b: Buckets<K, V>, k: K): (r: Buckets<K, V>)
    ensures Get(b, k).None? ==> r == b
    ensures Get(b, k).Some? ==> |r| == |b| - 1
    ensures forall k' :: k' != k ==> Get(r, k') == Get(b, k')
    ensures DistinctKeys(b) ==> DistinctKeys(r) && Get(r, k).None?
    ensures forall e :: e in r ==> e in b
  {
    match Find(b, k)
    case None => b
    case Some(i) =>
      var r := b[..i] + b[i + 1..];
      PopAt(b, r, i, k);
      r
  }

  /** `Pop` of a key found at position `i`, with the remaining entries
      described one by one. */
  lemma PopAt<K(!new), V>(b: Buckets<K, V>, r: Buckets<K, V>, i: nat, k: K)
    requires Find(b, k) == Some(i) && |r| == |b| - 1
    requires forall m :: 0 <= m < i ==> r[m] == b[m]
    requires forall m :: i <= m < |r| ==> r[m] == b[m + 1]
    ensures forall k' :: k' != k ==> Get(r, k') == Get(b, k')
    ensures DistinctKeys(b) ==> DistinctKeys(r) && Get(r, k).None?
    ensures forall e :: e in r ==> e in b
  {
    forall k' | k' != k ensures Get(r, k') == Get(b, k') {
      PopAtOther(b, r, i, k, k');
    }
    if DistinctKeys(b) {
      PopAtDistinct(b, r, i, k);
    }
    forall e | e in r ensures e in b {
      var m :| 0 <= m < |r| && r[m] == e;
      if m >= i {
        assert e == b[m + 1];
      }
    }
  }

  lemma PopAtOther<K(!new), V>(b: Buckets<K, V>, r: Buckets<K, V>, i: nat, k: K, k': K)
    requires Find(b, k) == Some(i) && |r| == |b| - 1 && k' != k
    requires forall m :: 0 <= m < i ==> r[m] == b[m]
    requires forall m :: i <= m < |r| ==> r[m] == b[m + 1]
    ensures Get(r, k') == Get(b, k')
  {
    match Find(b, k')
    case None =>
      FindShifted(b, r, i, k');
    case Some(j) =>
      PopAtFound(b, r, i, k', j);
  }

  lemma PopAtFound<K(!new), V>(b: Buckets<K, V>, r: Buckets<K, V>, i: nat, k': K, j: nat)
    requires j < |b| && b[j].0 == k' && forall m :: 0 <= m < j ==> b[m].0 != k'
    requires i < |b| && b[i].0 != k' && |r| == |b| - 1
    requires forall m :: 0 <= m < i ==> r[m] == b[m]
    requires forall m :: i <= m < |r| ==> r[m] == b[m + 1]
    ensures Get(r, k') == Some(b[j].1)
  {
    var j' := if j < i then j else j - 1;
    assert r[j'] == b[j];
    forall m | 0 <= m < j' ensures r[m].0 != k' {
      if m >= i {
        assert r[m] == b[m + 1];
      }
    }
    FindUnique(r, k', j');
  }

  lemma PopAtDistinct<K(!new), V>(b: Buckets<K, V>, r: Buckets<K, V>, i: nat, k: K)
    requires Find(b, k) == Some(i) && |r| == |b| - 1 && DistinctKeys(b)
    requires forall m :: 0 <= m < i ==> r[m] == b[m]
    requires forall m :: i <= m < |r| ==> r[m] == b[m + 1]
    ensures DistinctKeys(r) && Get(r, k).None?
  {
    forall m | 0 <= m < |r| ensures r[m].0 != k {
      if m >= i {
        assert r[m] == b[m + 1];
      }
    }
    forall m, n | 0 <= m < n < |r| ensures r[m].0 != r[n].0 {
      var m' := if m < i then m else m + 1;
      var n' := if n < i then n else n + 1;
      assert r[m] == b[m'] && r[n] == b[n'];
    }
  }

  /** How the position of another key moves when entry `i` is removed. */
  function Shift(r: Option<nat>, i: nat): Option<nat> {
    match r
    case None => None
    case Some(j) => if j <= i then Some(j) else Some(j - 1)
  }

  lemma FindUnique<K(!new), V>(b: Buckets<K, V>, k: K, i: nat)
    requires i < |b| && b[i].0 == k
    requires forall j :: 0 <= j < i ==> b[j].0 != k
    ensures Find(b, k) == Some(i)
  {
  }

  lemma FindAppend<K(!new), V>(b: Buckets<K, V>, e: (K, seq<V>), k: K)
    ensures Find(b + [e], k) == if Find(b, k).Some? then Find(b, k) else if e.0 == k then Some(|b|) else None
  {
    var r := b + [e];
    assert forall i :: 0 <= i < |b| ==> r[i] == b[i];
    match Find(b, k)
    case Some(i) => FindUnique(r, k, i);
    case None =>
      if e.0 == k {
        FindUnique(r, k, |b|);
      }
  }

  lemma FindUpdate<K(!new), V>(b: Buckets<K, V>, i: nat, e: (K, seq<V>), k: K)
    requires i < |b| && e.0 == b[i].0 && k != e.0
    ensures Find(b[i := e], k) == Find(b, k)
  {
    var r := b[i := e];
    match Find(b, k)
    case Some(j) => FindUnique(r, k, j);
    case None =>
  }

  lemma FindRemove<K(!new), V>(b: Buckets<K, V>, i: nat, k: K)
    requires i < |b| && b[i].0 != k
    ensures Find(b[..i] + b[i + 1..], k) == Shift(Find(b, k), i)
  {
    FindShifted(b, b[..i] + b[i + 1..], i, k);
  }

  /** `r` is `b` without entry `i`, described entry by entry. */
  lemma FindShifted<K(!new), V>(b: Buckets<K, V>, r: Buckets<K, V>, i: nat, k: K)
    requires i < |b| && b[i].0 != k && |r| == |b| - 1
    requires forall m :: 0 <= m < i ==> r[m] == b[m]
    requires forall m :: i <= m < |r| ==> r[m] == b[m + 1]
    ensures Find(r, k) == Shift(Find(b, k), i)
  {
    match Find(b, k)
    case None =>
      assert forall m :: 0 <= m < |r| ==> r[m].0 != k;
    case Some(j) =>
      if j < i {
        FindUnique(r, k, j);
      } else {
        assert r[j - 1] == b[j];
        FindUnique(r, k, j - 1);
      }
  }

  /** One push changes only the pushed key's list, by appending, and adds
      at most that key. */
  lemma PushLookup<K(!new), V>(b: Buckets<K, V>, k: K, v: V, c: K)
    ensures Lookup(Push(b, k, v), c) == if c == k then Lookup(b, k) + [v] else Lookup(b, c)
    ensures Get(Push(b, k, v), c).Some? <==> Get(b, c).Some? || c == k
  {
  }

  /** `for k, v in es: d.setdefault(k, []).append(v)`. */
  function PushAll<K(==,!new), V>(b: Buckets<K, V>, es: seq<(K, V)>): (r: Buckets<K, V>)
    ensures Size(r) == Size(b) + |es|
    ensures DistinctKeys(b) ==> DistinctKeys(r)
  {
    if |es| == 0 then b
    else
      var before := PushAll(b, es[..|es| - 1]);
      PushSize(before, es[|es| - 1].0, es[|es| - 1].1);
      Push(before, es[|es| - 1].0, es[|es| - 1].1)
  }

  /** The values of `es` filed under key `k`, in order: the reference
      definition of what `PushAll` adds to each list. */
  function ValuesAt<K(==), V>(es: seq<(K, V)>, k: K): seq<V> {
    if |es| == 0 then []
    else ValuesAt(es[..|es| - 1], k) + (if es[|es| - 1].0 == k then [es[|es| - 1].1] else [])
  }

  lemma {:induction false} ValuesAtMember<K, V>(es: seq<(K, V)>, k: K, m: nat)
    requires m < |ValuesAt(es, k)|
    ensures (k, ValuesAt(es, k)[m]) in es
    decreases |es|
  {
    var init := es[..|es| - 1];
    if m < |ValuesAt(init, k)| {
      ValuesAtMember(init, k, m);
      assert (k, ValuesAt(init, k)[m]) in init;
    }
  }

  /** After `PushAll`, every key's list is its old list followed by exactly
      the values filed under it, and a key is present exactly when it was
      before or some value was filed under it. */
  lemma {:induction false} PushAllLookup<K(!new), V>(b: Buckets<K, V>, es: seq<(K, V)>, c: K)
    ensures Lookup(PushAll(b, es), c) == Lookup(b, c) + ValuesAt(es, c)
    ensures Get(PushAll(b, es), c).Some? <==> Get(b, c).Some? || |ValuesAt(es, c)| > 0
    decreases |es|
  {
    if |es| > 0 {
      var init := es[..|es| - 1];
      var (k, v) := es[|es| - 1];
      PushAllLookup(b, init, c);
      PushLookup(PushAll(b, init), k, v, c);
      assert PushAll(b, es) == Push(PushAll(b, init), k, v);
      var tail := if k == c then [v] else [];
      assert ValuesAt(es, c) == ValuesAt(init, c) + tail;
      AppendAssoc(Lookup(b, c), ValuesAt(init, c), tail);
    }
  }

  lemma AppendAssoc<V>(a: seq<V>, b: seq<V>, c: seq<V>)
    ensures (a + b) + c == a + (b + c)
  {
  }

  /** Sum of the values of a list of pairs. */
  function SumValues<K>(es: seq<(K, int)>): int {
    if |es| == 0 then 0 else SumValues(es[..|es| - 1]) + es[|es| - 1].1
  }

  /** Values each between one and five sum to between `|es|` and `5 |es|`. */
  lemma {:induction false} SumValuesBetween<K>(es: seq<(K, int)>)
    requires forall i :: 0 <= i < |es| ==> 1 <= es[i].1 <= 5
    ensures |es| <= SumValues(es) <= 5 * |es|
  {
    if |es| > 0 {
      SumValuesBetween(es[..|es| - 1]);
    }
  }

  /** Sum of `f` over the lists of the dictionary. */
  function SumBy<K, V>(b: Buckets<K, V>, f: seq<V> -> int): int {
    if |b| == 0 then 0 else f(b[0].1) + SumBy(b[1..], f)
  }

  lemma {:induction false} SumByUpdate<K, V>(b: Buckets<K, V>, i: nat, e: (K, seq<V>), f: seq<V> -> int)
    requires i < |b|
    ensures SumBy(b[i := e], f) == SumBy(b, f) - f(b[i].1) + f(e.1)
    decreases |b|
  {
    if i == 0 {
      assert b[i := e][1..] == b[1..];
    } else {
      assert b[i := e][1..] == b[1..][i - 1 := e];
      SumByUpdate(b[1..], i - 1, e, f);
    }
  }

  lemma {:induction false} SumByAppend<K, V>(b: Buckets<K, V>, e: (K, seq<V>), f: seq<V> -> int)
    ensures SumBy(b + [e], f) == SumBy(b, f) + f(e.1)
    decreases |b|
  {
    if |b| == 0 {
      assert [e][1..] == [];
    } else {
      assert (b + [e])[1..] == b[1..] + [e];
      SumByAppend(b[1..], e, f);
    }
  }

  lemma {:induction false} SumByRemove<K, V>(b: Buckets<K, V>, i: nat, f: seq<V> -> int)
    requires i < |b|
    ensures SumBy(b[..i] + b[i + 1..], f) == SumBy(b, f) - f(b[i].1)
    decreases |b|
  {
    if i == 0 {
      assert b[..0] + b[1..] == b[1..];
    } else {
      assert (b[..i] + b[i + 1..])[1..] == b[1..][..i - 1] + b[1..][i..];
      SumByRemove(b[1..], i - 1, f);
    }
  }

  function Length<V>(vs: seq<V>): int {
    |vs|
  }

  /** Number of values stored, `sum(len(v) for v in d.values())`. */
  function Size<K, V>(b: Buckets<K, V>): int {
    SumBy(b, Length)
  }

  /** Sum of every stored value, `sum(sum(v) for v in d.values())`. */
  function Total<K>(b: Buckets<K, int>): int {
    SumBy(b, Sum)
  }

  /** Appending one value adds exactly one to the count of stored values. */
  lemma PushSize<K(!new), V>(b: Buckets<K, V>, k: K, v: V)
    ensures Size(Push(b, k, v)) == Size(b) + 1
  {
    match Find(b, k)
    case None => SumByAppend(b, (k, [v]), Length);
    case Some(i) => SumByUpdate(b, i, (k, b[i].1 + [v]), Length);
  }

  /** Appending value `v` raises the grand total by exactly `v`. */
  lemma PushTotal<K(!new)>(b: Buckets<K, int>, k: K, v: int)
    ensures Total(Push(b, k, v)) == Total(b) + v
  {
    match Find(b, k)
    case None =>
      assert Sum([v]) == v;
      SumByAppend(b, (k, [v]), Sum);
    case Some(i) =>
      assert (b[i].1 + [v])[..|b[i].1|] == b[i].1;
      SumByUpdate(b, i, (k, b[i].1 + [v]), Sum);
  }

  /** Popping a key lowers the grand total by the sum of its list. */
  lemma PopTotal<K(!new)>(b: Buckets<K, int>, k: K)
    ensures Total(Pop(b, k)) == Total(b) - Sum(Lookup(b, k))
  {
    match Find(b, k)
    case None =>
    case Some(i) => SumByRemove(b, i, Sum);
  }

  /** `PushAll` raises the grand total by exactly the sum of the values
      pushed. */
  lemma {:induction false} PushAllTotal<K(!new)>(b: Buckets<K, int>, es: seq<(K, int)>)
    ensures Total(PushAll(b, es)) == Total(b) + SumValues(es)
    decreases |es|
  {
    if |es| > 0 {
      var init := es[..|es| - 1];
      PushAllTotal(b, init);
      PushTotal(PushAll(b, init), es[|es| - 1].0, es[|es| - 1].1);
    }
  }
}
