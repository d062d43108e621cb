/**
 The scan for messages still to be parsed: a keyset cursor that walks the pending set in
 pages and starts over at its end.
 */
module PendingScan {
  import opened Seqs

  /** A message by reception time and id, both ordered like the text they are stored as. */
  datatype Key = Key(received: int, id: int)

  predicate Before(a: Key, b: Key) {
    a.received < b.received || (a.received == b.received && a.id < b.id)
  }

  predicate AtOrBefore(a: Key, b: Key) {
    a == b || Before(a, b)
  }

  // ----- selecting a page -----

  ghost predicate Least(s: set<Key>, x: Key) {
    x in s && forall y :: y in s ==> AtOrBefore(x, y)
  }

  lemma {:induction false} HasLeast(s: set<Key>)
    requires s != {}
    ensures exists x :: Least(s, x)
  {
    var x :| x in s;
    if s == {x} {
      assert Least(s, x);
    } else {
      HasLeast(s - {x});
      var y :| Least(s - {x}, y);
      var least := if Before(x, y) then x else y;
      forall z | z in s ensures AtOrBefore(least, z) {
        assert z == x || z in s - {x};
      }
      assert Least(s, least);
    }
  }

  /** The `limit` first elements in order. */
  ghost function Lowest(s: set<Key>, limit: nat): (rows: seq<Key>) {
    if s == {} || limit == 0 then []
    else
      HasLeast(s);
      var x :| Least(s, x);
      [x] + Lowest(s - {x}, limit - 1)
  }

  ghost predicate After(cursor: Option<Key>, x: Key) {
    cursor.None? || Before(cursor.value, x)
  }

  ghost function Beyond(pending: set<Key>, cursor: Option<Key>): (r: set<Key>) {
    set x | x in pending && After(cursor, x)
  }

  /** One call: the next page, from the start again when nothing is left beyond the cursor. */
  ghost function Scan(pending: set<Key>, cursor: Option<Key>, limit: nat): (r: (seq<Key>, Option<Key>)) {
    var next := Lowest(Beyond(pending, cursor), limit);
    var rows := if next == [] && cursor.Some? then Lowest(pending, limit) else next;
    if rows == [] then ([], None) else (rows, Some(rows[|rows| - 1]))
  }

  // ----- what a page covers -----

  ghost function Among(s: set<Key>, low: Option<Key>, high: Key): (r: set<Key>) {
    set x | x in s && After(low, x) && AtOrBefore(x, high)
  }

  ghost predicate Ascending(rows: seq<Key>) {
    forall i, j :: 0 <= i < j < |rows| ==> Before(rows[i], rows[j])
  }

  ghost function Elements(rows: seq<Key>): (r: set<Key>) {
    set x | x in rows
  }

  /** A page is ascending, and everything of the set up to its last element is in it. */
  lemma {:induction false} LowestIs(s: set<Key>, limit: nat)
    ensures var rows := Lowest(s, limit);
            && |rows| == (if |s| <= limit then |s| else limit)
            && (forall x :: x in rows ==> x in s)
            && (forall x, y :: x in rows && y in s && y !in rows ==> Before(x, y))
            && Ascending(rows)
    decreases limit
  {
    if s != {} && limit > 0 {
      HasLeast(s);
      var x :| Least(s, x) && Lowest(s, limit) == [x] + Lowest(s - {x}, limit - 1);
      LowestIs(s - {x}, limit - 1);
      var rest := Lowest(s - {x}, limit - 1);
      assert |s - {x}| == |s| - 1;
      forall j | 0 <= j < |rest| ensures Before(x, rest[j]) { assert rest[j] in rest; }
    }
  }

  /** Received earlier, or at the same time with a smaller id. */
  ghost predicate Older(a: Key, b: Key) {
    a.received < b.received || (a.received == b.received && a.id < b.id)
  }

  /** `rows` are the oldest of `s`, oldest first, as many as `limit` allows. */
  ghost predicate OldestOf(s: set<Key>, limit: nat, rows: seq<Key>) {
    && |rows| == (if |s| <= limit then |s| else limit)
    && (forall i :: 0 <= i < |rows| ==> rows[i] in s)
    && (forall i, j :: 0 <= i < j < |rows| ==> Older(rows[i], rows[j]))
    && (forall i, y :: 0 <= i < |rows| && y in s && y !in rows ==> Older(rows[i], y))
  }

  /**
   One call returns the oldest pending messages younger than the cursor, or, when there are
   none, the oldest of all; the new cursor is the last of them.
   */
  lemma ScanIs(pending: set<Key>, cursor: Option<Key>, limit: nat)
    requires limit > 0
    ensures var (rows, next) := Scan(pending, cursor, limit);
            var beyond := set x | x in pending && (cursor.None? || Older(cursor.value, x));
            && OldestOf(if beyond == {} then pending else beyond, limit, rows)
            && next == (if rows == [] then None else Some(rows[|rows| - 1]))
  {
    var beyond := set x | x in pending && (cursor.None? || Older(cursor.value, x));
    assert Beyond(pending, cursor) == beyond;
    assert cursor.None? ==> beyond == pending;
    LowestOldest(beyond, limit);
    LowestOldest(pending, limit);
    hide OldestOf, Lowest;
    assert beyond == {} <==> Lowest(beyond, limit) == [];
    assert pending == {} <==> Lowest(pending, limit) == [];
  }

  lemma LowestOldest(s: set<Key>, limit: nat)
    ensures OldestOf(s, limit, Lowest(s, limit))
    ensures limit > 0 ==> (s == {} <==> Lowest(s, limit) == [])
  {
    LowestIs(s, limit);
    var rows := Lowest(s, limit);
    hide Lowest;
    forall i | 0 <= i < |rows| ensures rows[i] in rows {}
  }

  lemma {:induction false} SizeOfRows(rows: seq<Key>)
    requires Ascending(rows)
    ensures |Elements(rows)| == |rows|
  {
    if rows == [] {
      assert Elements(rows) == {};
    } else {
      var front, last := rows[..|rows| - 1], rows[|rows| - 1];
      SizeOfRows(front);
      assert rows == front + [last];
      assert Elements(rows) == Elements(front) + {last};
      assert last !in front;
    }
  }

  lemma FullPage(s: set<Key>, limit: nat, m: Key)
    requires m in s && m !in Lowest(s, limit)
    ensures |Lowest(s, limit)| == limit
  {
    LowestIs(s, limit);
    var rows := Lowest(s, limit);
    SizeOfRows(rows);
    SubsetSize(Elements(rows) + {m}, s);
  }

  /** Up to its last row a page holds everything. */
  lemma PageSplits(s: set<Key>, limit: nat, high: Key)
    requires var rows := Lowest(s, limit); rows != [] && AtOrBefore(rows[|rows| - 1], high)
    ensures var rows := Lowest(s, limit); var last := rows[|rows| - 1];
            |Among(s, Some(last), high)| + |rows| == |Among(s, None, high)|
  {
    LowestIs(s, limit);
    var rows := Lowest(s, limit);
    var last := rows[|rows| - 1];
    hide Lowest;
    assert last in rows;
    SizeOfRows(rows);
    var later, taken := Among(s, Some(last), high), Elements(rows);
    forall x | x in rows ensures AtOrBefore(x, last) {
      var i :| 0 <= i < |rows| && rows[i] == x;
    }
    assert forall x :: x in s && !After(Some(last), x) ==> x in rows;
    assert Among(s, None, high) == later + taken;
    assert later !! taken;
  }

  // ----- how many calls a message can still wait -----

  /** How many pages `n` rows fill: n / limit, rounded up. */
  function Pages(n: nat, limit: nat): (p: nat)
    requires limit > 0
    ensures n <= p * limit && (n > 0 ==> (p - 1) * limit < n)
  {
    if n == 0 then 0
    else if n <= limit then 1
    else
      var p := Pages(n - limit, limit);
      assert (p + 1) * limit == p * limit + limit;
      assert (p - 1) * limit + limit == p * limit;
      p + 1
  }

  lemma {:induction false} PagesMonotone(a: nat, b: nat, limit: nat)
    requires limit > 0 && a <= b
    ensures Pages(a, limit) <= Pages(b, limit)
  {
    if a > limit { PagesMonotone(a - limit, b - limit, limit); }
  }

  lemma PagesStep(n: nat, limit: nat)
    requires limit > 0 && n >= limit
    ensures Pages(n, limit) == Pages(n - limit, limit) + 1
  {
  }

  lemma PagesSum(a: nat, b: nat, n: nat, limit: nat)
    requires limit > 0 && a + b <= n
    ensures Pages(a, limit) + Pages(b, limit) <= Pages(n, limit) + 1
    decreases a
  {
    if a >= limit {
      PagesStep(a, limit);
      PagesSum(a - limit, b, n - limit, limit);
      PagesStep(n, limit);
    } else {
      PagesMonotone(b, n, limit);
      PagesSmall(a, limit);
    }
  }

  lemma PagesSmall(a: nat, limit: nat)
    requires limit > 0 && a <= limit
    ensures Pages(a, limit) == if a == 0 then 0 else 1
  {
  }

  /** Bound on the calls until `m` is returned: to the end of the set if the cursor is past `m`, then up to `m`. */
  ghost function Wait(pending: set<Key>, cursor: Option<Key>, m: Key, limit: nat): (n: nat)
    requires limit > 0
  {
    if After(cursor, m) then Pages(|Among(pending, cursor, m)|, limit)
    else Pages(|Beyond(pending, cursor)|, limit) + Pages(|Among(pending, None, m)|, limit)
  }

  lemma WaitBounded(pending: set<Key>, cursor: Option<Key>, m: Key, limit: nat)
    requires limit > 0
    ensures Wait(pending, cursor, m, limit) <= Pages(|pending|, limit) + 1
  {
    if After(cursor, m) {
      SubsetSize(Among(pending, cursor, m), pending);
      PagesMonotone(|Among(pending, cursor, m)|, |pending|, limit);
    } else {
      var a, b := Beyond(pending, cursor), Among(pending, None, m);
      assert a !! b;
      SubsetSize(a + b, pending);
      assert |a + b| == |a| + |b|;
      PagesSum(|a|, |b|, |pending|, limit);
    }
  }

  /** Losing pending messages never makes the wait longer. */
  lemma WaitShrinks(pending: set<Key>, fewer: set<Key>, cursor: Option<Key>, m: Key, limit: nat)
    requires limit > 0 && fewer <= pending
    ensures Wait(fewer, cursor, m, limit) <= Wait(pending, cursor, m, limit)
  {
    SubsetSize(Among(fewer, cursor, m), Among(pending, cursor, m));
    PagesMonotone(|Among(fewer, cursor, m)|, |Among(pending, cursor, m)|, limit);
    SubsetSize(Beyond(fewer, cursor), Beyond(pending, cursor));
    PagesMonotone(|Beyond(fewer, cursor)|, |Beyond(pending, cursor)|, limit);
    SubsetSize(Among(fewer, None, m), Among(pending, None, m));
    PagesMonotone(|Among(fewer, None, m)|, |Among(pending, None, m)|, limit);
  }

  lemma AmongBeyond(pending: set<Key>, cursor: Option<Key>, low: Option<Key>, high: Key)
    requires low.None? || (cursor.None? || AtOrBefore(cursor.value, low.value))
    ensures low.None? ==> Among(Beyond(pending, cursor), None, high) == Among(pending, cursor, high)
    ensures low.Some? ==> Among(Beyond(pending, cursor), low, high) == Among(pending, low, high)
  {
  }

  /** The cursor is before `m`: the page has it, or the wait is one page shorter. */
  lemma ScanTowards(pending: set<Key>, cursor: Option<Key>, m: Key, limit: nat)
    requires limit > 0 && m in pending && After(cursor, m)
    ensures var (rows, next) := Scan(pending, cursor, limit);
            m in rows || Wait(pending, next, m, limit) < Wait(pending, cursor, m, limit)
  {
    var s := Beyond(pending, cursor);
    assert m in s;
    LowestIs(s, limit);
    var rows := Lowest(s, limit);
    assert rows != [] by { SubsetSize({m}, s); }
    if m !in rows {
      var last := rows[|rows| - 1];
      assert last in rows && Before(last, m);
      FullPage(s, limit, m);
      PageSplits(s, limit, m);
      AmongBeyond(pending, cursor, None, m);
      AmongBeyond(pending, cursor, Some(last), m);
      PagesStep(|Among(pending, cursor, m)|, limit);
    }
  }

  /** The cursor is past `m`, with something beyond it: the wait is one page shorter. */
  lemma ScanToEnd(pending: set<Key>, cursor: Option<Key>, m: Key, limit: nat)
    requires limit > 0 && m in pending && !After(cursor, m) && Beyond(pending, cursor) != {}
    ensures var (rows, next) := Scan(pending, cursor, limit);
            Wait(pending, next, m, limit) < Wait(pending, cursor, m, limit)
  {
    var s := Beyond(pending, cursor);
    LowestIs(s, limit);
    var rows := Lowest(s, limit);
    assert |s| > 0;
    var last := rows[|rows| - 1];
    assert last in rows && last in s;
    LeftBeyond(pending, cursor, limit);
    hide Lowest;
    if |rows| == limit {
      PagesStep(|s|, limit);
      PagesMonotone(|Beyond(pending, Some(last))|, |s| - limit, limit);
    } else {
      PagesSmall(|s|, limit);
      PagesSmall(0, limit);
    }
  }

  lemma LeftBeyond(pending: set<Key>, cursor: Option<Key>, limit: nat)
    requires Lowest(Beyond(pending, cursor), limit) != []
    ensures var s := Beyond(pending, cursor); var rows := Lowest(s, limit);
            |Beyond(pending, Some(rows[|rows| - 1]))| + |rows| <= |s|
  {
    var s := Beyond(pending, cursor);
    var rows := Lowest(s, limit);
    LowestIs(s, limit);
    hide Lowest;
    RowsThenRest(s, rows, Beyond(pending, Some(rows[|rows| - 1]))) by {
      var last := rows[|rows| - 1];
      assert last in rows && last in s;
      forall x | x in Beyond(pending, Some(last)) ensures x in s && Before(last, x) { }
    }
  }

  lemma RowsThenRest(s: set<Key>, rows: seq<Key>, left: set<Key>)
    requires rows != [] && Ascending(rows)
    requires forall x :: x in rows ==> x in s
    requires forall x :: x in left ==> x in s && Before(rows[|rows| - 1], x)
    ensures |left| + |rows| <= |s|
  {
    var taken := Elements(rows);
    SizeOfRows(rows);
    forall x | x in rows ensures x !in left {
      var i :| 0 <= i < |rows| && rows[i] == x;
    }
    SubsetSize(left + taken, s);
    assert |left + taken| == |left| + |taken|;
  }

  /** Nothing is left beyond the cursor: the call starts over. */
  lemma ScanWraps(pending: set<Key>, cursor: Option<Key>, m: Key, limit: nat)
    requires limit > 0 && m in pending && !After(cursor, m) && Beyond(pending, cursor) == {}
    ensures var (rows, next) := Scan(pending, cursor, limit);
            m in rows || Wait(pending, next, m, limit) < Wait(pending, cursor, m, limit)
  {
    ScanTowards(pending, None, m, limit);
    assert Beyond(pending, None) == pending;
    assert Lowest(Beyond(pending, cursor), limit) == [];
    assert Scan(pending, cursor, limit) == Scan(pending, None, limit);
  }

  lemma ScanProgress(pending: set<Key>, cursor: Option<Key>, m: Key, limit: nat)
    requires limit > 0 && m in pending
    ensures var (rows, next) := Scan(pending, cursor, limit);
            m in rows || Wait(pending, next, m, limit) < Wait(pending, cursor, m, limit)
  {
    if After(cursor, m) {
      ScanTowards(pending, cursor, m, limit);
    } else if Beyond(pending, cursor) != {} {
      ScanToEnd(pending, cursor, m, limit);
    } else {
      ScanWraps(pending, cursor, m, limit);
    }
  }

  // ----- fairness -----

  /** Whether `m` is in one of the pages, when call `i` sees the pending set `views[i]`. */
  ghost predicate Returned(views: seq<set<Key>>, cursor: Option<Key>, m: Key, limit: nat) {
    views != []
    && (m in Scan(views[0], cursor, limit).0 || Returned(views[1..], Scan(views[0], cursor, limit).1, m, limit))
  }

  /** Messages only leave the pending set, and `m` stays. */
  ghost predicate Draining(views: seq<set<Key>>, m: Key) {
    && (forall i :: 0 <= i < |views| ==> m in views[i])
    && (forall i, j :: 0 <= i < j < |views| ==> views[j] <= views[i])
  }

  lemma {:induction false} ReturnedWithin(views: seq<set<Key>>, cursor: Option<Key>, m: Key, limit: nat)
    requires limit > 0 && Draining(views, m) && views != [] && Wait(views[0], cursor, m, limit) <= |views|
    ensures Returned(views, cursor, m, limit)
    decreases |views|
  {
    var (rows, next) := Scan(views[0], cursor, limit);
    ScanProgress(views[0], cursor, m, limit);
    if m !in rows {
      var rest := views[1..];
      WaitPositive(views[0], next, m, limit);
      WaitShrinks(views[0], rest[0], next, m, limit);
      hide Wait, Scan;
      ReturnedWithin(rest, next, m, limit);
    }
  }

  lemma WaitPositive(pending: set<Key>, cursor: Option<Key>, m: Key, limit: nat)
    requires limit > 0 && m in pending
    ensures Wait(pending, cursor, m, limit) >= 1
  {
    var s := if After(cursor, m) then Among(pending, cursor, m) else Among(pending, None, m);
    SubsetSize({m}, s);
    PagesMonotone(1, |s|, limit);
    PagesSmall(1, limit);
  }

  /**
   Fairness: from any cursor, while nothing becomes pending anew, a message that stays
   pending is returned within ceil(n / limit) + 1 calls, n being the pending messages at first.
   */
  lemma PendingScanFair(views: seq<set<Key>>, cursor: Option<Key>, m: Key, limit: nat)
    requires limit > 0 && Draining(views, m) && views != []
    requires |views| >= Pages(|views[0]|, limit) + 1
    ensures Returned(views, cursor, m, limit)
  {
    WaitBounded(views[0], cursor, m, limit);
    ReturnedWithin(views, cursor, m, limit);
  }
}
