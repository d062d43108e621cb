/** Insertion-ordered dictionaries, as the caches and limiters use them for LRU order. */
module OrderedDict {
  import opened Seqs

  datatype Dict<K(==, !new), V> = Dict(order: seq<K>, items: map<K, V>)

  ghost predicate Distinct<K>(s: seq<K>) {
    forall i, j :: 0 <= i < j < |s| ==> s[i] != s[j]
  }

  ghost predicate Valid<K(!new), V>(d: Dict<K, V>) {
    && Distinct(d.order)
    && (forall i :: 0 <= i < |d.order| ==> d.order[i] in d.items)
    && (forall k :: k in d.items ==> k in d.order)
  }

  /** As many entries as places in the order. */
  lemma {:induction false} ValidSize<K(!new), V>(d: Dict<K, V>)
    requires Valid(d)
    ensures |d.items| == |d.order|
    decreases |d.order|
  {
    if d.order == [] {
      assert d.items.Keys == {};
    } else {
      PopFirstValid(d);
      ValidSize(PopFirst(d));
      assert PopFirst(d).items.Keys == d.items.Keys - {d.order[0]};
    }
  }

  function Empty<K(!new), V>(): (d: Dict<K, V>) { Dict([], map[]) }

  /** `s` without the elements of `gone`, the rest in the same order. */
  function Minus<K(==, !new)>(s: seq<K>, gone: set<K>): (r: seq<K>)
    ensures forall x :: x in r <==> x in s && x !in gone
    ensures |r| <= |s|
  {
    if s == [] then []
    else if s[0] in gone then Minus(s[1..], gone)
    else [s[0]] + Minus(s[1..], gone)
  }

  function SetOf<K(==, !new)>(s: seq<K>): (r: set<K>)
    ensures forall x :: x in r <==> x in s
  {
    set x | x in s
  }

  function Without<K(==, !new)>(s: seq<K>, k: K): (r: seq<K>) {
    Minus(s, {k})
  }

  /** `d[k] = v` followed by moving `k` to the end. */
  function PutLast<K(!new), V>(d: Dict<K, V>, k: K, v: V): (r: Dict<K, V>) {
    Dict(Without(d.order, k) + [k], d.items[k := v])
  }

  function MoveToEnd<K(!new), V>(d: Dict<K, V>, k: K): (r: Dict<K, V>)
    requires k in d.items
  {
    Dict(Without(d.order, k) + [k], d.items)
  }

  function Pop<K(!new), V>(d: Dict<K, V>, k: K): (r: Dict<K, V>) {
    Dict(Without(d.order, k), d.items - {k})
  }

  function RemoveAll<K(!new), V>(d: Dict<K, V>, gone: set<K>): (r: Dict<K, V>) {
    Dict(Minus(d.order, gone), d.items - gone)
  }

  function PopFirst<K(!new), V>(d: Dict<K, V>): (r: Dict<K, V>)
    requires d.order != []
  {
    Dict(d.order[1..], d.items - {d.order[0]})
  }

  /** A lookup: a live entry becomes the youngest, a dead one is dropped. */
  function Lookup<K(!new), V>(d: Dict<K, V>, k: K, live: bool): (r: Dict<K, V>) {
    if k !in d.items then d else if live then MoveToEnd(d, k) else Pop(d, k)
  }

  /** Drops the oldest entries until at most `limit` remain. */
  ghost function Shrink<K(!new), V>(d: Dict<K, V>, limit: nat): (r: Dict<K, V>)
    decreases |d.order|
  {
    if |d.order| <= limit then d else Shrink(PopFirst(d), limit)
  }

  lemma {:induction false} MinusDistinct<K(!new)>(s: seq<K>, gone: set<K>)
    requires Distinct(s)
    ensures Distinct(Minus(s, gone))
  {
    if s != [] {
      var rest := s[1..];
      assert s == [s[0]] + rest;
      MinusDistinct(rest, gone);
      var w := Minus(rest, gone);
      forall i, j | 0 <= i < j < |w| + 1 ensures ([s[0]] + w)[i] != ([s[0]] + w)[j] {
        if i == 0 { assert w[j - 1] in w; assert w[j - 1] in rest; }
      }
    }
  }

  lemma {:induction false} MinusMinus<K(!new)>(s: seq<K>, a: set<K>, b: set<K>)
    ensures Minus(Minus(s, a), b) == Minus(s, a + b)
  {
    if s != [] {
      MinusMinus(s[1..], a, b);
      if s[0] !in a {
        assert ([s[0]] + Minus(s[1..], a))[1..] == Minus(s[1..], a);
      }
    }
  }

  lemma {:induction false} MinusNothing<K(!new)>(s: seq<K>, gone: set<K>)
    requires forall x :: x in s ==> x !in gone
    ensures Minus(s, gone) == s
  {
    if s != [] {
      assert s == [s[0]] + s[1..];
      MinusNothing(s[1..], gone);
    }
  }

  lemma RemoveAllValid<K(!new), V>(d: Dict<K, V>, gone: set<K>)
    requires Valid(d)
    ensures Valid(RemoveAll(d, gone)) && |RemoveAll(d, gone).items| <= |d.items|
  {
    MinusDistinct(d.order, gone);
    var r := RemoveAll(d, gone);
    forall i | 0 <= i < |r.order| ensures r.order[i] in r.items { assert r.order[i] in r.order; }
    SubsetSize(r.items.Keys, d.items.Keys);
  }

  lemma PopAfterRemove<K(!new), V>(d: Dict<K, V>, gone: set<K>, k: K)
    ensures Pop(RemoveAll(d, gone), k) == RemoveAll(d, gone + {k})
  {
    MinusMinus(d.order, gone, {k});
    assert (d.items - gone) - {k} == d.items - (gone + {k});
  }

  lemma RemoveNothing<K(!new), V>(d: Dict<K, V>)
    ensures RemoveAll(d, {}) == d
  {
    MinusNothing(d.order, {});
    assert d.items - {} == d.items;
  }

  lemma PutLastValid<K(!new), V>(d: Dict<K, V>, k: K, v: V)
    requires Valid(d)
    ensures Valid(PutLast(d, k, v))
  {
    MinusDistinct(d.order, {k});
    var w := Without(d.order, k);
    forall i | 0 <= i < |w| ensures w[i] in d.items && w[i] != k { assert w[i] in w; }
  }

  lemma PopValid<K(!new), V>(d: Dict<K, V>, k: K)
    requires Valid(d)
    ensures Valid(Pop(d, k))
  {
    MinusDistinct(d.order, {k});
    var w := Without(d.order, k);
    forall i | 0 <= i < |w| ensures w[i] in d.items && w[i] != k { assert w[i] in w; }
  }

  lemma PopFirstValid<K(!new), V>(d: Dict<K, V>)
    requires Valid(d) && d.order != []
    ensures Valid(PopFirst(d))
  {
    assert d.order == [d.order[0]] + d.order[1..];
  }

  /** Shrinking only ever drops entries. */
  lemma {:induction false} ShrinkItems<K(!new), V>(d: Dict<K, V>, limit: nat)
    ensures forall k :: k in Shrink(d, limit).items ==> k in d.items && Shrink(d, limit).items[k] == d.items[k]
    decreases |d.order|
  {
    if |d.order| > limit {
      ShrinkItems(PopFirst(d), limit);
    }
  }

  /** Shrinking meets the bound, and does nothing when the bound is met already. */
  lemma {:induction false} ShrinkValid<K(!new), V>(d: Dict<K, V>, limit: nat)
    requires Valid(d)
    ensures Valid(Shrink(d, limit)) && |Shrink(d, limit).items| <= limit
    ensures |d.items| <= limit ==> Shrink(d, limit) == d
    decreases |d.order|
  {
    ValidSize(d);
    if |d.order| > limit {
      PopFirstValid(d);
      ShrinkValid(PopFirst(d), limit);
    }
  }

  // ----- what the order is worth -----

  ghost predicate InOrder<K>(s: seq<K>, a: K, b: K) {
    exists i, j :: 0 <= i < j < |s| && s[i] == a && s[j] == b
  }

  /** `k` is one of the last `n` elements. */
  ghost predicate AmongLast<K>(s: seq<K>, k: K, n: int) {
    exists i :: 0 <= i < |s| && s[i] == k && |s| - i <= n
  }

  /** Taking elements out leaves the others in their order. */
  lemma {:induction false} MinusOrder<K(!new)>(s: seq<K>, gone: set<K>, a: K, b: K)
    requires a !in gone && b !in gone
    ensures InOrder(Minus(s, gone), a, b) <==> InOrder(s, a, b)
  {
    if s != [] {
      var x, rest := s[0], s[1..];
      MinusOrder(rest, gone, a, b);
      InOrderCons(x, rest, a, b);
      assert s == [x] + rest;
      if x !in gone { InOrderCons(x, Minus(rest, gone), a, b); }
    }
  }

  lemma InOrderCons<K>(x: K, rest: seq<K>, a: K, b: K)
    ensures InOrder([x] + rest, a, b) <==> InOrder(rest, a, b) || (x == a && b in rest)
  {
    var s := [x] + rest;
    if i, j :| 0 <= i < j < |s| && s[i] == a && s[j] == b {
      assert s[j] == rest[j - 1];
      if i > 0 { assert s[i] == rest[i - 1]; }
    }
    if i, j :| 0 <= i < j < |rest| && rest[i] == a && rest[j] == b {
      assert s[i + 1] == a && s[j + 1] == b;
    }
    if x == a && b in rest {
      var j :| 0 <= j < |rest| && rest[j] == b;
      assert s[0] == a && s[j + 1] == b;
    }
  }

  /** `r` has the same other elements as `s`, in the same order. */
  ghost predicate SameOthers<K(!new)>(s: seq<K>, r: seq<K>, k: K) {
    && (forall a :: a != k ==> (a in s <==> a in r))
    && (forall a, b :: a != k && b != k ==> (InOrder(s, a, b) <==> InOrder(r, a, b)))
  }

  lemma WithoutOthers<K(!new)>(s: seq<K>, k: K)
    ensures SameOthers(s, Without(s, k), k) && SameOthers(s, Without(s, k) + [k], k) && k !in Without(s, k)
  {
    var w := Without(s, k);
    forall a, b | a != k && b != k
      ensures (InOrder(s, a, b) <==> InOrder(w, a, b)) && (InOrder(w, a, b) <==> InOrder(w + [k], a, b))
    {
      MinusOrder(s, {k}, a, b);
      if InOrder(w, a, b) {
        var i, j :| 0 <= i < j < |w| && w[i] == a && w[j] == b;
        assert (w + [k])[i] == a && (w + [k])[j] == b;
      }
      if InOrder(w + [k], a, b) {
        var i, j :| 0 <= i < j < |w + [k]| && (w + [k])[i] == a && (w + [k])[j] == b;
        assert w[i] == a && w[j] == b;
      }
    }
  }

  /** A hit changes no entry and makes its key the youngest; a dead entry goes, alone. */
  lemma LookupIs<K(!new), V>(d: Dict<K, V>, k: K, live: bool)
    requires Valid(d)
    ensures var r := Lookup(d, k, live);
            && (k !in d.items ==> r == d)
            && (k in d.items && live ==> r.items == d.items && r.order != [] && r.order[|r.order| - 1] == k)
            && (k in d.items && !live ==> r.items.Keys == d.items.Keys - {k} && k !in r.order)
            && (forall a :: a in r.items ==> a in d.items && r.items[a] == d.items[a])
            && SameOthers(d.order, r.order, k)
  {
    WithoutOthers(d.order, k);
  }

  lemma {:induction false} MinusAmongLast<K(!new)>(s: seq<K>, gone: set<K>, k: K, n: int)
    requires AmongLast(s, k, n) && k !in gone
    ensures AmongLast(Minus(s, gone), k, n)
  {
    var i :| 0 <= i < |s| && s[i] == k && |s| - i <= n;
    var x, rest := s[0], s[1..];
    if i > 0 {
      assert rest[i - 1] == k && |rest| - (i - 1) <= n;
      MinusAmongLast(rest, gone, k, n);
      var j :| 0 <= j < |Minus(rest, gone)| && Minus(rest, gone)[j] == k && |Minus(rest, gone)| - j <= n;
      assert x !in gone ==> ([x] + Minus(rest, gone))[j + 1] == k;
    } else {
      assert Minus(s, gone)[0] == k;
    }
  }

  /** An element used or added at the end costs every other one at most one place. */
  lemma PutAmongLast<K(!new)>(s: seq<K>, x: K, k: K, n: int)
    requires AmongLast(s, k, n) && k != x
    ensures AmongLast(Without(s, x) + [x], k, n + 1)
  {
    MinusAmongLast(s, {x}, k, n);
    var w := Without(s, x);
    var i :| 0 <= i < |w| && w[i] == k && |w| - i <= n;
    assert (w + [x])[i] == k;
  }

  lemma {:induction false} ShrinkOrder<K(!new), V>(d: Dict<K, V>, limit: nat)
    ensures Shrink(d, limit).order == (if |d.order| <= limit then d.order else d.order[|d.order| - limit..])
    decreases |d.order|
  {
    if |d.order| > limit {
      var p := PopFirst(d);
      ShrinkOrder(p, limit);
      if |p.order| > limit { assert p.order[|p.order| - limit..] == d.order[|d.order| - limit..]; }
    }
  }

  /** Shrinking keeps the youngest entries. */
  lemma ShrinkIs<K(!new), V>(d: Dict<K, V>, limit: nat)
    requires Valid(d)
    ensures Shrink(d, limit).order == (if |d.order| <= limit then d.order else d.order[|d.order| - limit..])
    ensures forall k :: k in Shrink(d, limit).items <==> k in Shrink(d, limit).order
  {
    ShrinkOrder(d, limit);
    ShrinkValid(d, limit);
    hide Shrink;
    hide Distinct;
  }

  lemma SuffixAmongLast<K>(s: seq<K>, k: K, n: int, m: nat)
    requires AmongLast(s, k, n) && n <= m <= |s|
    ensures AmongLast(s[|s| - m..], k, n)
  {
    var i :| 0 <= i < |s| && s[i] == k && |s| - i <= n;
    assert s[|s| - m..][i - (|s| - m)] == k;
  }

  lemma AmongIsIn<K>(s: seq<K>, k: K, n: int)
    requires AmongLast(s, k, n)
    ensures k in s
  {
  }

  lemma ShrinkKeeps<K(!new), V>(d: Dict<K, V>, limit: nat, k: K, n: int)
    requires Valid(d) && AmongLast(d.order, k, n) && n <= limit
    ensures AmongLast(Shrink(d, limit).order, k, n)
    ensures k in d.items && k in Shrink(d, limit).items && Shrink(d, limit).items[k] == d.items[k]
  {
    ShrinkIs(d, limit);
    ShrinkItems(d, limit);
    if |d.order| > limit { SuffixAmongLast(d.order, k, n, limit); }
    hide Shrink;
    AmongIsIn(Shrink(d, limit).order, k, n);
    hide AmongLast, Valid;
  }
}
