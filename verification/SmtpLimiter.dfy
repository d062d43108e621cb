/**
 The per-address connection limiter of the SMTP listener: windows of accepted times
 in two orders, one for the LRU bound and one for expiry, against a limiter that
 simply keeps every accepted time.
 */
module SmtpLimiter {
  import opened Seqs
  import opened OrderedDict

  type Ip = int               // an address, compared only for equality
  type Session = int          // a session name, likewise

  const MIN_ENTRIES: nat := 1024
  const MAX_ENTRIES: nat := 65536

  /** The two dictionaries: windows in LRU order, and the addresses in accepted-time order. */
  datatype Tables = Tables(windows: Dict<Ip, seq<real>>, expiry: seq<Ip>)

  /** Accepted times since the limiter last forgot an address, over the whole run, and who was forgotten. */
  datatype History = History(recent: map<Ip, seq<real>>, whole: map<Ip, seq<real>>, forgotten: set<Ip>)

  datatype Limiter = Limiter(
    active: map<Session, Ip>,
    tables: Tables,
    past: History,
    clock: real,              // latest time used
    cutoff: real              // latest cutoff used
  )

  /** One attempt to connect, with the settings in force. */
  datatype Call = Call(session: Session, ip: Ip, now: real, maxActive: int, rate: int, window: int)

  datatype Verdict = Accepted | TooManyActive | TooFast

  predicate Enabled(c: Call) { c.rate > 0 && c.window > 0 }

  function Cutoff(c: Call): (r: real) { c.now - c.window as real }

  function Capacity(maxActive: int): (n: nat)
    ensures MIN_ENTRIES <= n <= MAX_ENTRIES
  {
    var wanted := if maxActive > 0 then maxActive * 4 else 0;
    var least := if wanted > MIN_ENTRIES then wanted else MIN_ENTRIES;
    if least < MAX_ENTRIES then least else MAX_ENTRIES
  }

  // ----- the operations on the tables -----

  /** Drops addresses from the front of the expiry order until one is still live. */
  ghost function EvictStale(t: Tables, cutoff: real): (r: Tables)
    decreases |t.expiry|
  {
    if t.expiry == [] then t
    else
      var ip := t.expiry[0];
      if ip !in t.windows.items then EvictStale(t.(expiry := t.expiry[1..]), cutoff)
      else
        var w := t.windows.items[ip];
        if w != [] && w[|w| - 1] > cutoff then t
        else EvictStale(Tables(Pop(t.windows, ip), t.expiry[1..]), cutoff)
  }

  function PopOldest(t: Tables): (r: Tables)
    requires t.windows.order != []
  {
    Tables(PopFirst(t.windows), Without(t.expiry, t.windows.order[0]))
  }

  /** Makes room for one more address by dropping the least recently used ones. */
  ghost function MakeRoom(t: Tables, capacity: nat): (r: Tables)
    decreases |t.windows.order|
  {
    if capacity == 0 || |t.windows.order| < capacity then t else MakeRoom(PopOldest(t), capacity)
  }

  /** The times of a window that are still live. */
  ghost function Trim(w: seq<real>, cutoff: real): (r: seq<real>) {
    if w != [] && w[0] <= cutoff then Trim(w[1..], cutoff) else w
  }

  /** Brings the window of the caller to the end of the LRU order, creating it if needed, and trims it. */
  ghost function Touch(t: Tables, c: Call): (r: Tables)
    ensures c.ip in r.windows.items
  {
    var e := EvictStale(t, Cutoff(c));
    if c.ip in e.windows.items then
      e.(windows := PutLast(e.windows, c.ip, Trim(e.windows.items[c.ip], Cutoff(c))))
    else
      var m := MakeRoom(e, Capacity(c.maxActive));
      m.(windows := PutLast(m.windows, c.ip, []))
  }

  function Append(t: Tables, ip: Ip, now: real): (r: Tables)
    requires ip in t.windows.items
  {
    Tables(t.windows.(items := t.windows.items[ip := t.windows.items[ip] + [now]]),
           Without(t.expiry, ip) + [ip])
  }

  // ----- the whole attempt -----

  function Of(m: map<Ip, seq<real>>, ip: Ip): (h: seq<real>) {
    if ip in m then m[ip] else []
  }

  /** Addresses that lose a window while it is still live. */
  ghost function PushedOut(before: Tables, after: Tables, cutoff: real): (r: set<Ip>) {
    EvictStale(before, cutoff).windows.items.Keys - after.windows.items.Keys
  }

  ghost function Forget(h: History, ips: set<Ip>): (r: History) {
    h.(recent := h.recent - ips, forgotten := h.forgotten + ips)
  }

  ghost function Recorded(h: History, ip: Ip, now: real): (r: History) {
    h.(recent := h.recent[ip := Of(h.recent, ip) + [now]], whole := h.whole[ip := Of(h.whole, ip) + [now]])
  }

  /** A disabled limiter drops the windows it still holds. */
  function Cleared(t: Tables): (r: Tables) {
    if t.windows.order == [] then t else Tables(Empty(), [])
  }

  ghost function Register(s: Limiter, c: Call): (r: (Limiter, Verdict)) {
    if c.session in s.active then (s, Accepted)
    else if c.maxActive > 0 && |s.active| >= c.maxActive then (s, TooManyActive)
    else if Enabled(c) then
      var t := Touch(s.tables, c);
      var past := Forget(s.past, PushedOut(s.tables, t, Cutoff(c)));
      var u := s.(tables := t, past := past, clock := c.now, cutoff := Cutoff(c));
      if |t.windows.items[c.ip]| >= c.rate then (u, TooFast)
      else
        (u.(tables := Append(t, c.ip, c.now), past := Recorded(past, c.ip, c.now),
            active := s.active[c.session := c.ip]), Accepted)
    else
      (s.(tables := Cleared(s.tables), past := Forget(s.past, s.tables.windows.items.Keys),
          active := s.active[c.session := c.ip]), Accepted)
  }

  function Release(s: Limiter, session: Session): (r: Limiter) {
    s.(active := s.active - {session})
  }

  // ----- the naive limiter -----

  /** How many of these times are later than the cutoff. */
  ghost function Live(h: seq<real>, cutoff: real): (n: nat) {
    if h == [] then 0 else Live(h[..|h| - 1], cutoff) + if h[|h| - 1] > cutoff then 1 else 0
  }

  /** Counts every accepted time of the address inside the window. */
  ghost predicate NaiveRefuses(h: seq<real>, c: Call) {
    Enabled(c) && Live(h, Cutoff(c)) >= c.rate
  }

  // ----- invariants -----

  function Latest(w: seq<real>): (r: real) {
    if w == [] then 0.0 else w[|w| - 1]
  }

  ghost predicate ByLatest(s: seq<Ip>, items: map<Ip, seq<real>>) {
    && (forall i :: 0 <= i < |s| ==> s[i] in items)
    && (forall i, j :: 0 <= i < j < |s| ==> Latest(items[s[i]]) <= Latest(items[s[j]]))
  }

  /** Same addresses in both orders, no empty window, and the expiry order sorted. */
  ghost predicate TablesOk(t: Tables) {
    && Valid(t.windows)
    && Distinct(t.expiry)
    && ByLatest(t.expiry, t.windows.items)
    && (forall ip :: ip in t.windows.items ==> ip in t.expiry && t.windows.items[ip] != [])
  }

  ghost predicate InOrder(w: seq<real>) {
    forall i, j :: 0 <= i < j < |w| ==> w[i] <= w[j]
  }

  /** `w` is what remains of `h` once times up to `cutoff` may have been dropped. */
  ghost predicate Remnant(w: seq<real>, h: seq<real>, cutoff: real) {
    && |w| <= |h|
    && w == h[|h| - |w|..]
    && forall i :: 0 <= i < |h| - |w| ==> h[i] <= cutoff
  }

  /** The window kept for an address against its accepted times. */
  ghost predicate AccountOk(w: seq<real>, h: seq<real>, clock: real, cutoff: real) {
    h != [] && InOrder(h) && Latest(h) <= clock && Remnant(w, h, cutoff)
  }

  ghost predicate PastOk(items: map<Ip, seq<real>>, recent: map<Ip, seq<real>>, clock: real, cutoff: real) {
    && (forall ip :: ip in items ==> ip in recent)
    && (forall ip :: ip in recent ==> AccountOk(Of(items, ip), recent[ip], clock, cutoff))
  }

  /** What was never forgotten is remembered in full. */
  ghost predicate Faithful(past: History) {
    forall ip :: ip !in past.forgotten ==> Of(past.recent, ip) == Of(past.whole, ip)
  }

  ghost predicate Inv(s: Limiter) {
    && TablesOk(s.tables)
    && PastOk(s.tables.windows.items, s.past.recent, s.clock, s.cutoff)
    && Faithful(s.past)
    && |s.tables.windows.items| <= MAX_ENTRIES
  }

  /** The clock and the cutoff do not run backwards; with a fixed window the first implies the second. */
  ghost predicate Timely(s: Limiter, c: Call) {
    s.clock <= c.now && (Enabled(c) ==> s.cutoff <= Cutoff(c))
  }

  // ----- the tables -----

  lemma {:induction false} MinusByLatest(s: seq<Ip>, gone: set<Ip>, items: map<Ip, seq<real>>)
    requires ByLatest(s, items)
    ensures ByLatest(Minus(s, gone), items)
  {
    hide Latest;
    if s != [] {
      var rest := s[1..];
      assert ByLatest(rest, items);
      MinusByLatest(rest, gone, items);
      var w := Minus(rest, gone);
      forall j | 0 <= j < |w| ensures Latest(items[s[0]]) <= Latest(items[w[j]]) {
        assert w[j] in w && w[j] in rest;
        var k :| 0 <= k < |rest| && rest[k] == w[j];
        assert rest[k] == s[k + 1];
      }
    }
  }

  lemma DropOk(t: Tables, r: Tables, ip: Ip)
    requires TablesOk(t) && Valid(r.windows) && r.windows.items == t.windows.items - {ip}
    requires r.expiry == Without(t.expiry, ip)
    ensures TablesOk(r)
  {
    MinusDistinct(t.expiry, {ip});
    MinusByLatest(t.expiry, {ip}, t.windows.items);
    forall i | 0 <= i < |r.expiry| ensures r.expiry[i] in r.windows.items {
      assert r.expiry[i] in r.expiry;
    }
  }

  lemma WithoutHead(s: seq<Ip>)
    requires s != [] && Distinct(s)
    ensures Without(s, s[0]) == s[1..]
  {
    assert s == [s[0]] + s[1..];
    MinusNothing(s[1..], {s[0]});
  }

  ghost predicate Kept(t: map<Ip, seq<real>>, r: map<Ip, seq<real>>, cutoff: real) {
    && (forall ip :: ip in r <==> ip in t && Latest(t[ip]) > cutoff)
    && (forall ip :: ip in r ==> r[ip] == t[ip])
  }

  lemma HeadWindow(t: Tables)
    requires TablesOk(t) && t.expiry != []
    ensures t.expiry[0] in t.windows.items && t.windows.items[t.expiry[0]] != []
  {
    var ip := t.expiry[0];
    assert ip in t.windows.items && ip in t.expiry;
  }

  /** Behind a live head of the expiry order everything is live. */
  lemma LiveHead(t: Tables, cutoff: real)
    requires TablesOk(t) && (t.expiry == [] || Latest(t.windows.items[t.expiry[0]]) > cutoff)
    ensures Kept(t.windows.items, t.windows.items, cutoff)
  {
    forall k | k in t.windows.items ensures Latest(t.windows.items[k]) > cutoff {
      var i :| 0 <= i < |t.expiry| && t.expiry[i] == k;
    }
  }

  lemma PopItems(d: Dict<Ip, seq<real>>, ip: Ip)
    ensures Pop(d, ip).items == d.items - {ip}
  {
  }

  lemma KeptDrop(t: map<Ip, seq<real>>, ip: Ip, r: map<Ip, seq<real>>, cutoff: real)
    requires Kept(t - {ip}, r, cutoff) && ip in t && Latest(t[ip]) <= cutoff
    ensures Kept(t, r, cutoff)
  {
    hide Latest;
  }

  /** Expiry removes exactly the fully stale windows. */
  lemma {:induction false} EvictStaleExact(t: Tables, cutoff: real)
    requires TablesOk(t)
    ensures var r := EvictStale(t, cutoff);
            TablesOk(r) && Kept(t.windows.items, r.windows.items, cutoff) && |r.windows.items| <= |t.windows.items|
    decreases |t.expiry|
  {
    if t.expiry == [] || Latest(t.windows.items[t.expiry[0]]) > cutoff {
      LiveHead(t, cutoff);
      if t.expiry != [] { HeadWindow(t); }
      hide TablesOk, Kept;
      assert EvictStale(t, cutoff) == t;
    } else {
      var ip := t.expiry[0];
      var u := Tables(Pop(t.windows, ip), t.expiry[1..]);
      EvictHead(t);
      HeadWindow(t);
      hide TablesOk, Kept, Pop;
      assert EvictStale(t, cutoff) == EvictStale(u, cutoff);
      EvictStaleExact(u, cutoff);
      assert u.windows.items == t.windows.items - {ip} by { PopItems(t.windows, ip); }
      KeptDrop(t.windows.items, ip, EvictStale(u, cutoff).windows.items, cutoff);
    }
  }

  lemma EvictHead(t: Tables)
    requires TablesOk(t) && t.expiry != []
    ensures var u := Tables(Pop(t.windows, t.expiry[0]), t.expiry[1..]);
            TablesOk(u) && |u.windows.items| <= |t.windows.items|
  {
    var ip := t.expiry[0];
    var u := Tables(Pop(t.windows, ip), t.expiry[1..]);
    PopValid(t.windows, ip);
    WithoutHead(t.expiry);
    DropOk(t, u, ip);
    SubsetSize(u.windows.items.Keys, t.windows.items.Keys);
  }

  /** Making room only drops windows, and only when the table is full. */
  lemma {:induction false} MakeRoomOk(t: Tables, capacity: nat)
    requires TablesOk(t) && capacity > 0
    ensures var r := MakeRoom(t, capacity);
            && TablesOk(r)
            && |r.windows.items| < capacity
            && (|t.windows.items| < capacity ==> r == t)
            && (forall ip :: ip in r.windows.items ==> ip in t.windows.items && r.windows.items[ip] == t.windows.items[ip])
    decreases |t.windows.order|
  {
    ValidSize(t.windows);
    if |t.windows.order| >= capacity {
      PopFirstValid(t.windows);
      DropOk(t, PopOldest(t), t.windows.order[0]);
      MakeRoomOk(PopOldest(t), capacity);
    }
  }

  lemma {:induction false} TrimRemnant(w: seq<real>, cutoff: real)
    requires InOrder(w)
    ensures Remnant(Trim(w, cutoff), w, cutoff)
    ensures forall i :: 0 <= i < |Trim(w, cutoff)| ==> Trim(w, cutoff)[i] > cutoff
  {
    if w != [] && w[0] <= cutoff {
      var v := w[1..];
      TrimRemnant(v, cutoff);
      var x := Trim(v, cutoff);
      assert x == w[|w| - |x|..];
      forall i | 0 <= i < |w| - |x| ensures w[i] <= cutoff {
        if i > 0 { assert w[i] == v[i - 1]; }
      }
    }
  }

  lemma {:induction false} AllLive(w: seq<real>, cutoff: real)
    requires forall i :: 0 <= i < |w| ==> w[i] > cutoff
    ensures Live(w, cutoff) == |w|
  {
    if w != [] { AllLive(w[..|w| - 1], cutoff); }
  }

  lemma {:induction false} NoneLive(w: seq<real>, cutoff: real)
    requires forall i :: 0 <= i < |w| ==> w[i] <= cutoff
    ensures Live(w, cutoff) == 0
  {
    if w != [] { NoneLive(w[..|w| - 1], cutoff); }
  }

  /** Times that were dropped no longer count. */
  lemma {:induction false} LiveSuffix(w: seq<real>, h: seq<real>, cutoff: real)
    requires Remnant(w, h, cutoff)
    ensures Live(h, cutoff) == Live(w, cutoff)
  {
    if w == [] {
      NoneLive(h, cutoff);
    } else {
      var n := |h| - 1;
      assert w[|w| - 1] == h[n];
      assert w[..|w| - 1] == h[..n][|h| - |w|..];
      LiveSuffix(w[..|w| - 1], h[..n], cutoff);
    }
  }

  lemma RemnantTrim(w: seq<real>, h: seq<real>, clock: real, cutoff: real)
    requires AccountOk(w, h, clock, cutoff) && w != [] && Latest(w) > cutoff
    ensures AccountOk(Trim(w, cutoff), h, clock, cutoff) && |Trim(w, cutoff)| == Live(h, cutoff)
    ensures Trim(w, cutoff) != [] && Latest(Trim(w, cutoff)) == Latest(w)
  {
    TrimRemnant(w, cutoff);
    LiveSuffix(Trim(w, cutoff), w, cutoff);
    AllLive(Trim(w, cutoff), cutoff);
    LiveSuffix(w, h, cutoff);
    hide Trim, Live;
  }

  // ----- one attempt -----

  lemma AccountLater(w: seq<real>, h: seq<real>, clock: real, cutoff: real, now: real, later: real)
    requires AccountOk(w, h, clock, cutoff) && clock <= now && cutoff <= later
    ensures AccountOk(w, h, now, later)
    ensures (w == [] || Latest(w) <= later) ==> AccountOk([], h, now, later)
  {
  }

  /** Tables and history after expiry alone. */
  lemma EvictPast(t: Tables, recent: map<Ip, seq<real>>, clock: real, cutoff: real, now: real, later: real)
    requires TablesOk(t) && PastOk(t.windows.items, recent, clock, cutoff) && clock <= now && cutoff <= later
    ensures PastOk(EvictStale(t, later).windows.items, recent, now, later)
  {
    EvictStaleExact(t, later);
    hide TablesOk, AccountOk;
    var e := EvictStale(t, later).windows.items;
    forall ip | ip in recent ensures AccountOk(Of(e, ip), recent[ip], now, later) {
      AccountLater(Of(t.windows.items, ip), recent[ip], clock, cutoff, now, later);
    }
  }

  lemma PushPast(items: map<Ip, seq<real>>, kept: map<Ip, seq<real>>, past: History, clock: real, cutoff: real)
    requires PastOk(items, past.recent, clock, cutoff) && Faithful(past)
    requires forall ip :: ip in kept ==> ip in items && kept[ip] == items[ip]
    ensures PastOk(kept, Forget(past, items.Keys - kept.Keys).recent, clock, cutoff)
    ensures Faithful(Forget(past, items.Keys - kept.Keys))
  {
    hide AccountOk;
    var f := Forget(past, items.Keys - kept.Keys);
    forall ip | ip in f.recent ensures Of(kept, ip) == Of(items, ip) { }
  }

  /** A window placed at the end of the LRU order leaves the tables sound if it keeps its latest time. */
  lemma PutOk(t: Tables, ip: Ip, w: seq<real>)
    requires TablesOk(t) && ip in t.windows.items && w != [] && Latest(w) == Latest(t.windows.items[ip])
    ensures TablesOk(t.(windows := PutLast(t.windows, ip, w)))
    ensures |PutLast(t.windows, ip, w).items| == |t.windows.items|
  {
    PutLastValid(t.windows, ip, w);
    assert t.windows.items[ip := w].Keys == t.windows.items.Keys;
  }

  /** Before the verdict the caller's window holds exactly its live accepted times. */
  lemma TouchHot(t: Tables, past: History, c: Call, clock: real, cutoff: real)
    requires TablesOk(t) && PastOk(t.windows.items, past.recent, clock, cutoff)
    requires clock <= c.now && cutoff <= Cutoff(c) && c.ip in EvictStale(t, Cutoff(c)).windows.items
    ensures var r := Touch(t, c);
            && TablesOk(r)
            && PastOk(r.windows.items, past.recent, c.now, Cutoff(c))
            && PushedOut(t, r, Cutoff(c)) == {}
            && |r.windows.items[c.ip]| == Live(Of(past.recent, c.ip), Cutoff(c))
            && |r.windows.items| <= |t.windows.items|
  {
    EvictStaleExact(t, Cutoff(c));
    EvictPast(t, past.recent, clock, cutoff, c.now, Cutoff(c));
    var e := EvictStale(t, Cutoff(c));
    var w := e.windows.items[c.ip];
    assert w != [];
    RemnantTrim(w, past.recent[c.ip], c.now, Cutoff(c));
    PutOk(e, c.ip, Trim(w, Cutoff(c)));
    hide TablesOk, AccountOk, EvictStale, Trim, Live;
    TrimmedPast(e.windows.items, past.recent, c.ip, Trim(w, Cutoff(c)), c.now, Cutoff(c));
    assert Touch(t, c).windows.items.Keys == e.windows.items.Keys;
    hide PastOk;
  }

  lemma TrimmedPast(items: map<Ip, seq<real>>, recent: map<Ip, seq<real>>, ip: Ip, w: seq<real>, clock: real, cutoff: real)
    requires PastOk(items, recent, clock, cutoff) && ip in items && ip in recent && AccountOk(w, recent[ip], clock, cutoff)
    ensures PastOk(items[ip := w], recent, clock, cutoff)
  {
    hide AccountOk;
    forall k | k in recent ensures AccountOk(Of(items[ip := w], k), recent[k], clock, cutoff) {
      if k != ip { assert Of(items[ip := w], k) == Of(items, k); }
    }
  }

  /** An address without a live window starts from nothing. */
  lemma TouchCold(t: Tables, past: History, c: Call, clock: real, cutoff: real)
    requires TablesOk(t) && PastOk(t.windows.items, past.recent, clock, cutoff) && Faithful(past)
    requires clock <= c.now && cutoff <= Cutoff(c) && c.ip !in EvictStale(t, Cutoff(c)).windows.items
    ensures var r := Touch(t, c); var m := MakeRoom(EvictStale(t, Cutoff(c)), Capacity(c.maxActive));
            var f := Forget(past, PushedOut(t, r, Cutoff(c)));
            && TablesOk(m)
            && r == m.(windows := PutLast(m.windows, c.ip, []))
            && PastOk(m.windows.items, f.recent, c.now, Cutoff(c)) && Faithful(f)
            && c.ip !in m.windows.items
            && Of(f.recent, c.ip) == Of(past.recent, c.ip)
            && Live(Of(past.recent, c.ip), Cutoff(c)) == 0
            && |m.windows.items| < Capacity(c.maxActive)
  {
    var e := EvictStale(t, Cutoff(c));
    var m := MakeRoom(e, Capacity(c.maxActive));
    EvictStaleExact(t, Cutoff(c));
    EvictPast(t, past.recent, clock, cutoff, c.now, Cutoff(c));
    MakeRoomOk(e, Capacity(c.maxActive));
    if c.ip in past.recent {
      LiveSuffix([], past.recent[c.ip], Cutoff(c));
    }
    hide TablesOk, AccountOk;
    assert PushedOut(t, Touch(t, c), Cutoff(c)) == e.windows.items.Keys - m.windows.items.Keys;
    PushPast(e.windows.items, m.windows.items, past, c.now, Cutoff(c));
  }

  lemma AppendByLatest(rest: seq<Ip>, items: map<Ip, seq<real>>, ip: Ip, w: seq<real>, now: real)
    requires ByLatest(rest, items) && (forall i :: 0 <= i < |rest| ==> rest[i] != ip)
    requires forall i :: 0 <= i < |rest| ==> Latest(items[rest[i]]) <= now
    ensures ByLatest(rest + [ip], items[ip := w + [now]])
  {
    var after, s := items[ip := w + [now]], rest + [ip];
    assert Latest(w + [now]) == now;
    forall i, j | 0 <= i < j < |s| ensures Latest(after[s[i]]) <= Latest(after[s[j]]) {
      assert s[i] == rest[i];
    }
  }

  lemma AppendOk(t: Tables, ip: Ip, w: seq<real>, now: real)
    requires TablesOk(t) && forall k :: k in t.windows.items ==> Latest(t.windows.items[k]) <= now
    ensures TablesOk(Tables(PutLast(t.windows, ip, w + [now]), Without(t.expiry, ip) + [ip]))
  {
    PutLastValid(t.windows, ip, w + [now]);
    MinusDistinct(t.expiry, {ip});
    MinusByLatest(t.expiry, {ip}, t.windows.items);
    var rest := Without(t.expiry, ip);
    forall i | 0 <= i < |rest| ensures rest[i] != ip { assert rest[i] in rest; }
    AppendByLatest(rest, t.windows.items, ip, w, now);
    hide ByLatest, Valid;
    assert Distinct(rest + [ip]);
    assert (rest + [ip])[|rest|] == ip;
    forall k | k in t.windows.items ensures k in rest + [ip] { assert k in rest || k == ip; }
  }

  lemma PutSize(items: map<Ip, seq<real>>, ip: Ip, w: seq<real>)
    ensures |items[ip := w]| == |items| + if ip in items then 0 else 1
  {
    assert items[ip := w].Keys == items.Keys + {ip};
  }

  lemma LatestBound(items: map<Ip, seq<real>>, recent: map<Ip, seq<real>>, clock: real, cutoff: real)
    requires PastOk(items, recent, clock, cutoff)
    ensures forall k :: k in items && items[k] != [] ==> Latest(items[k]) <= clock
  {
    forall k | k in items && items[k] != [] ensures Latest(items[k]) <= clock {
      assert AccountOk(Of(items, k), recent[k], clock, cutoff);
    }
  }

  lemma AccountAppend(w: seq<real>, h: seq<real>, now: real, cutoff: real)
    requires (h == [] && w == []) || AccountOk(w, h, now, cutoff)
    ensures AccountOk(w + [now], h + [now], now, cutoff)
  {
    var x, g := w + [now], h + [now];
    assert x == g[|g| - |x|..];
    assert Latest(g) == now;
    forall i, j | 0 <= i < j < |g| ensures g[i] <= g[j] {
      assert i < |h| && g[i] == h[i] && h[i] <= Latest(h);
    }
    assert Remnant(x, g, cutoff);
  }

  lemma RecordedAccounts(items: map<Ip, seq<real>>, recent: map<Ip, seq<real>>, ip: Ip, now: real, cutoff: real)
    requires PastOk(items, recent, now, cutoff)
    ensures PastOk(items[ip := Of(items, ip) + [now]], recent[ip := Of(recent, ip) + [now]], now, cutoff)
  {
    var w, h := Of(items, ip), Of(recent, ip);
    AccountAppend(w, h, now, cutoff);
    hide AccountOk;
    var after, later := items[ip := w + [now]], recent[ip := h + [now]];
    forall k | k in later ensures AccountOk(Of(after, k), later[k], now, cutoff) {
      if k != ip { assert Of(after, k) == Of(items, k) && later[k] == recent[k]; }
    }
  }

  lemma RecordPast(items: map<Ip, seq<real>>, past: History, ip: Ip, w: seq<real>, now: real, cutoff: real)
    requires PastOk(items, past.recent, now, cutoff) && Faithful(past) && w == Of(items, ip)
    ensures PastOk(items[ip := w + [now]], Recorded(past, ip, now).recent, now, cutoff)
    ensures Faithful(Recorded(past, ip, now))
  {
    hide PastOk;
    RecordedAccounts(items, past.recent, ip, now, cutoff);
  }

  /** The part of the state that one attempt must leave sound. */
  ghost predicate Sound(t: Tables, past: History, clock: real, cutoff: real) {
    TablesOk(t) && PastOk(t.windows.items, past.recent, clock, cutoff) && Faithful(past)
  }

  lemma AppendIsPut(m: Tables, ip: Ip, w: seq<real>, now: real)
    ensures Append(m.(windows := PutLast(m.windows, ip, w)), ip, now)
            == Tables(PutLast(m.windows, ip, w + [now]), Without(m.expiry, ip) + [ip])
  {
    assert m.windows.items[ip := w][ip := w + [now]] == m.windows.items[ip := w + [now]];
  }

  /** The windows once the caller's window, if it has one, is trimmed to `w`. */
  function Trimmed(items: map<Ip, seq<real>>, ip: Ip, w: seq<real>): (r: map<Ip, seq<real>>) {
    if ip in items then items[ip := w] else items
  }

  /** An accepted attempt: `m` is the tables before the caller's window moved, `w` its live times. */
  lemma AcceptOk(m: Tables, past: History, ip: Ip, w: seq<real>, now: real, cutoff: real)
    requires TablesOk(m) && Faithful(past) && PastOk(Trimmed(m.windows.items, ip, w), past.recent, now, cutoff)
    requires Of(Trimmed(m.windows.items, ip, w), ip) == w
    requires forall k :: k in m.windows.items ==> Latest(m.windows.items[k]) <= now
    ensures var r := m.(windows := PutLast(m.windows, ip, w));
            && Sound(Append(r, ip, now), Recorded(past, ip, now), now, cutoff)
            && |Append(r, ip, now).windows.items| == |m.windows.items| + if ip in m.windows.items then 0 else 1
  {
    AppendOk(m, ip, w, now);
    RecordPast(Trimmed(m.windows.items, ip, w), past, ip, w, now, cutoff);
    PutSize(m.windows.items, ip, w + [now]);
    AppendIsPut(m, ip, w, now);
    assert Trimmed(m.windows.items, ip, w)[ip := w + [now]] == m.windows.items[ip := w + [now]];
    hide TablesOk, AccountOk, Faithful, PastOk, Append, Recorded;
  }

  lemma ForgetNothing(past: History)
    ensures Forget(past, {}) == past
  {
    assert past.recent - {} == past.recent;
  }

  lemma HotInv(s: Limiter, c: Call)
    requires Inv(s) && s.clock <= c.now && s.cutoff <= Cutoff(c) && Enabled(c)
    requires c.ip in EvictStale(s.tables, Cutoff(c)).windows.items
    ensures var t := Touch(s.tables, c); var past := Forget(s.past, PushedOut(s.tables, t, Cutoff(c)));
            && Sound(t, past, c.now, Cutoff(c))
            && Sound(Append(t, c.ip, c.now), Recorded(past, c.ip, c.now), c.now, Cutoff(c))
            && |t.windows.items[c.ip]| == Live(Of(s.past.recent, c.ip), Cutoff(c))
            && |t.windows.items| <= |s.tables.windows.items|
            && |Append(t, c.ip, c.now).windows.items| <= |s.tables.windows.items|
  {
    var e := EvictStale(s.tables, Cutoff(c));
    var w := Trim(e.windows.items[c.ip], Cutoff(c));
    TouchHot(s.tables, s.past, c, s.clock, s.cutoff);
    EvictStaleExact(s.tables, Cutoff(c));
    EvictPast(s.tables, s.past.recent, s.clock, s.cutoff, c.now, Cutoff(c));
    LatestBound(e.windows.items, s.past.recent, c.now, Cutoff(c));
    assert forall k :: k in e.windows.items ==> e.windows.items[k] != [];
    ForgetNothing(s.past);
    hide TablesOk, AccountOk, PastOk, Faithful, EvictStale, Trim, Live;
    AcceptOk(e, s.past, c.ip, w, c.now, Cutoff(c));
  }

  lemma ColdInv(s: Limiter, c: Call)
    requires Inv(s) && s.clock <= c.now && s.cutoff <= Cutoff(c) && Enabled(c)
    requires c.ip !in EvictStale(s.tables, Cutoff(c)).windows.items
    ensures var t := Touch(s.tables, c); var past := Forget(s.past, PushedOut(s.tables, t, Cutoff(c)));
            && t.windows.items[c.ip] == []
            && Live(Of(s.past.recent, c.ip), Cutoff(c)) == 0
            && Sound(Append(t, c.ip, c.now), Recorded(past, c.ip, c.now), c.now, Cutoff(c))
            && |Append(t, c.ip, c.now).windows.items| <= Capacity(c.maxActive)
  {
    var t := Touch(s.tables, c);
    var past := Forget(s.past, PushedOut(s.tables, t, Cutoff(c)));
    var m := MakeRoom(EvictStale(s.tables, Cutoff(c)), Capacity(c.maxActive));
    TouchCold(s.tables, s.past, c, s.clock, s.cutoff);
    LatestBound(m.windows.items, past.recent, c.now, Cutoff(c));
    assert forall k :: k in m.windows.items ==> m.windows.items[k] != [];
    hide TablesOk, AccountOk, PastOk, Faithful, EvictStale, MakeRoom;
    AcceptOk(m, past, c.ip, [], c.now, Cutoff(c));
  }

  lemma ClearInv(s: Limiter)
    requires Inv(s)
    ensures Sound(Cleared(s.tables), Forget(s.past, s.tables.windows.items.Keys), s.clock, s.cutoff)
  {
    var empty: map<Ip, seq<real>> := map[];
    PushPast(s.tables.windows.items, empty, s.past, s.clock, s.cutoff);
    assert s.tables.windows.items.Keys - empty.Keys == s.tables.windows.items.Keys;
    if s.tables.windows.order == [] {
      assert s.tables.windows.items == empty;
    }
  }

  /** Whether the rate rule is consulted at all. */
  ghost predicate Judged(s: Limiter, c: Call) {
    c.session !in s.active && !(c.maxActive > 0 && |s.active| >= c.maxActive)
  }

  /** One attempt keeps the invariant, and its verdict is the naive limiter's on the remembered times. */
  lemma RegisterInv(s: Limiter, c: Call)
    requires Inv(s) && Timely(s, c)
    ensures Inv(Register(s, c).0)
    ensures Register(s, c).1 == TooFast <==> Judged(s, c) && NaiveRefuses(Of(s.past.recent, c.ip), c)
    ensures |s.tables.windows.items| <= Capacity(c.maxActive) ==>
              |Register(s, c).0.tables.windows.items| <= Capacity(c.maxActive)
  {
    if Judged(s, c) && Enabled(c) {
      if c.ip in EvictStale(s.tables, Cutoff(c)).windows.items {
        HotInv(s, c);
      } else {
        ColdInv(s, c);
      }
      hide TablesOk, AccountOk, PastOk, Faithful, EvictStale;
    } else if Judged(s, c) {
      ClearInv(s);
    }
  }

  // ----- runs -----

  datatype Op = Connect(call: Call) | Disconnect(session: Session)

  ghost function Next(s: Limiter, op: Op): (r: Limiter) {
    match op
    case Connect(c) => Register(s, c).0
    case Disconnect(session) => Release(s, session)
  }

  ghost function After(s: Limiter, ops: seq<Op>): (r: Limiter)
    decreases |ops|
  {
    if ops == [] then s else After(Next(s, ops[0]), ops[1..])
  }

  /** No attempt sees the clock or the cutoff run backwards. */
  ghost predicate Legal(s: Limiter, ops: seq<Op>)
    decreases |ops|
  {
    ops == [] || ((ops[0].Connect? ==> Timely(s, ops[0].call)) && Legal(Next(s, ops[0]), ops[1..]))
  }

  ghost function Init(clock: real, cutoff: real): (s: Limiter) {
    Limiter(map[], Tables(Empty(), []), History(map[], map[], {}), clock, cutoff)
  }

  lemma {:induction false} RunInv(s: Limiter, ops: seq<Op>)
    requires Inv(s) && Legal(s, ops)
    ensures Inv(After(s, ops))
    decreases |ops|
  {
    if ops != [] {
      if ops[0].Connect? { RegisterInv(s, ops[0].call); }
      hide TablesOk, PastOk, Faithful, Register;
      RunInv(Next(s, ops[0]), ops[1..]);
    }
  }

  // ----- what the attempts and their verdicts say -----

  /** Whether the attempt is told to go ahead. */
  ghost predicate Admitted(s: Limiter, op: Op) {
    op.Connect? && Register(s, op.call).1 == Accepted
  }

  /** The sessions with an accepted attempt and no release since, starting from `open`. */
  ghost function OpenSessions(s: Limiter, open: set<Session>, ops: seq<Op>): (r: set<Session>)
    decreases |ops|
  {
    if ops == [] then open
    else
      var next := if Admitted(s, ops[0]) then open + {ops[0].call.session}
                  else if ops[0].Disconnect? then open - {ops[0].session} else open;
      OpenSessions(Next(s, ops[0]), next, ops[1..])
  }

  /** The times at which the address opened a session while the rate rule was on. */
  ghost function AcceptedTimes(s: Limiter, open: set<Session>, ops: seq<Op>, ip: Ip): (r: seq<real>)
    decreases |ops|
  {
    if ops == [] then []
    else
      var op := ops[0];
      var next := if Admitted(s, op) then open + {op.call.session}
                  else if op.Disconnect? then open - {op.session} else open;
      TimeOf(s, open, op, ip) + AcceptedTimes(Next(s, op), next, ops[1..], ip)
  }

  ghost function TimeOf(s: Limiter, open: set<Session>, op: Op, ip: Ip): (r: seq<real>) {
    if Admitted(s, op) && op.call.session !in open && op.call.ip == ip && op.call.rate > 0 && op.call.window > 0
    then [op.call.now] else []
  }

  lemma StepActive(s: Limiter, op: Op)
    ensures Next(s, op).active.Keys ==
            if Admitted(s, op) then s.active.Keys + {op.call.session}
            else if op.Disconnect? then s.active.Keys - {op.session} else s.active.Keys
  {
    hide Touch, PushedOut, Forget, Recorded, Append, Cleared;
  }

  lemma {:induction false} ActiveIs(s: Limiter, ops: seq<Op>)
    ensures After(s, ops).active.Keys == OpenSessions(s, s.active.Keys, ops)
    decreases |ops|
  {
    if ops != [] {
      StepActive(s, ops[0]);
      hide Next, Admitted;
      ActiveIs(Next(s, ops[0]), ops[1..]);
    }
  }

  lemma StepWhole(s: Limiter, op: Op, ip: Ip)
    ensures Of(Next(s, op).past.whole, ip) == Of(s.past.whole, ip) + TimeOf(s, s.active.Keys, op, ip)
  {
    hide Touch, PushedOut, Append, Cleared;
  }

  lemma ConcatThree(a: seq<real>, b: seq<real>, c: seq<real>)
    ensures (a + b) + c == a + (b + c)
  {
  }

  lemma {:induction false} WholeIs(s: Limiter, ops: seq<Op>, ip: Ip)
    ensures Of(After(s, ops).past.whole, ip) == Of(s.past.whole, ip) + AcceptedTimes(s, s.active.Keys, ops, ip)
    decreases |ops|
  {
    hide Next, Admitted, Of, TimeOf;
    if ops != [] {
      var n := Next(s, ops[0]);
      StepActive(s, ops[0]);
      StepWhole(s, ops[0], ip);
      WholeIs(n, ops[1..], ip);
      ConcatThree(Of(s.past.whole, ip), TimeOf(s, s.active.Keys, ops[0], ip), AcceptedTimes(n, n.active.Keys, ops[1..], ip));
    }
  }

  /**
   In every run the limiter counts exactly the open sessions, and turns an attempt away for
   their number exactly when it is not one of them and they have reached a positive limit.
   */
  lemma ActiveInEveryRun(clock: real, cutoff: real, ops: seq<Op>, c: Call)
    ensures var s, open := After(Init(clock, cutoff), ops), OpenSessions(Init(clock, cutoff), {}, ops);
            && s.active.Keys == open
            && (Register(s, c).1 == TooManyActive <==> c.session !in open && 0 < c.maxActive <= |open|)
            && (c.session in open ==> Register(s, c).1 == Accepted)
  {
    ActiveIs(Init(clock, cutoff), ops);
    assert Init(clock, cutoff).active.Keys == {};
    hide After, OpenSessions, Touch, PushedOut, Forget, Recorded, Append, Cleared;
    assert |After(Init(clock, cutoff), ops).active| == |After(Init(clock, cutoff), ops).active.Keys|;
  }

  lemma StepWithinLimit(s: Limiter, op: Op, maxActive: int)
    requires 0 < maxActive && (op.Connect? ==> op.call.maxActive == maxActive) && |s.active.Keys| <= maxActive
    ensures |Next(s, op).active.Keys| <= maxActive
  {
    StepActive(s, op);
    if op.Disconnect? { SubsetSize(s.active.Keys - {op.session}, s.active.Keys); }
    if Admitted(s, op) && op.call.session in s.active { assert s.active.Keys + {op.call.session} == s.active.Keys; }
    assert |s.active| == |s.active.Keys|;
    hide Touch, PushedOut, Forget, Recorded, Append, Cleared, Next;
  }

  lemma {:induction false} ActiveWithinLimit(s: Limiter, ops: seq<Op>, maxActive: int)
    requires 0 < maxActive && SameMaxActive(ops, maxActive) && |s.active.Keys| <= maxActive
    ensures |After(s, ops).active.Keys| <= maxActive
    decreases |ops|
  {
    if ops != [] {
      StepWithinLimit(s, ops[0], maxActive);
      hide Next;
      ActiveWithinLimit(Next(s, ops[0]), ops[1..], maxActive);
    }
  }

  /** Under a fixed positive limit there are never more open sessions than it allows. */
  lemma LimitInEveryRun(clock: real, cutoff: real, ops: seq<Op>, maxActive: int)
    requires 0 < maxActive && SameMaxActive(ops, maxActive)
    ensures |OpenSessions(Init(clock, cutoff), {}, ops)| <= maxActive
  {
    var i := Init(clock, cutoff);
    ActiveIs(i, ops);
    assert i.active.Keys == {};
    ActiveWithinLimit(i, ops, maxActive);
  }

  /**
   In every run, an address that was never pushed out by the LRU bound nor cleared with a
   disabled limiter gets the verdict of a limiter that keeps all its accepted times: the
   attempt is refused for the rate exactly when it reaches the rule and enough of them lie
   inside the window.
   */
  lemma RefinesNaive(clock: real, cutoff: real, ops: seq<Op>, c: Call)
    requires Legal(Init(clock, cutoff), ops) && Timely(After(Init(clock, cutoff), ops), c)
    ensures var i := Init(clock, cutoff);
            var s, open := After(i, ops), OpenSessions(i, {}, ops);
            c.ip !in s.past.forgotten ==>
              (Register(s, c).1 == TooFast <==>
                 && c.session !in open && !(0 < c.maxActive <= |open|)
                 && NaiveRefuses(AcceptedTimes(i, {}, ops, c.ip), c))
  {
    hide TablesOk, PastOk, Register, After, OpenSessions, AcceptedTimes, Legal, NaiveRefuses;
    var i := Init(clock, cutoff);
    var s := After(i, ops);
    StartInv(clock, cutoff);
    RunInv(i, ops);
    hide Inv, Faithful, Timely;
    if c.ip !in s.past.forgotten { JudgedByWhole(s, c); }
    ActiveIs(i, ops);
    WholeIs(i, ops, c.ip);
    assert |s.active| == |s.active.Keys|;
    assert [] + AcceptedTimes(i, {}, ops, c.ip) == AcceptedTimes(i, {}, ops, c.ip);
    assert Of(i.past.whole, c.ip) == [];
  }

  lemma StartInv(clock: real, cutoff: real)
    ensures Inv(Init(clock, cutoff)) && Init(clock, cutoff).active.Keys == {}
    ensures forall ip :: Of(Init(clock, cutoff).past.whole, ip) == []
  {
  }

  lemma JudgedByWhole(s: Limiter, c: Call)
    requires Inv(s) && Timely(s, c) && c.ip !in s.past.forgotten
    ensures Register(s, c).1 == TooFast <==>
            c.session !in s.active && !(0 < c.maxActive <= |s.active|) && NaiveRefuses(Of(s.past.whole, c.ip), c)
  {
    RegisterInv(s, c);
    hide TablesOk, PastOk, Register, NaiveRefuses;
  }

  /** In every run both orders hold the same addresses, expiry is sorted, and the table is bounded. */
  lemma TablesInEveryRun(clock: real, cutoff: real, ops: seq<Op>)
    requires Legal(Init(clock, cutoff), ops)
    ensures TablesOk(After(Init(clock, cutoff), ops).tables)
    ensures |After(Init(clock, cutoff), ops).tables.windows.items| <= 65536
  {
    RunInv(Init(clock, cutoff), ops);
  }

  /** Every attempt runs under the same limit of concurrent connections. */
  ghost predicate SameMaxActive(ops: seq<Op>, maxActive: int) {
    forall i :: 0 <= i < |ops| && ops[i].Connect? ==> ops[i].call.maxActive == maxActive
  }

  /** With a fixed limit the table never exceeds the capacity that limit configures. */
  lemma {:induction false} TableWithinCapacity(s: Limiter, ops: seq<Op>, maxActive: int)
    requires Inv(s) && Legal(s, ops) && SameMaxActive(ops, maxActive) && |s.tables.windows.items| <= Capacity(maxActive)
    ensures |After(s, ops).tables.windows.items| <= Capacity(maxActive)
    decreases |ops|
  {
    if ops != [] {
      if ops[0].Connect? { RegisterInv(s, ops[0].call); }
      hide TablesOk, PastOk, Faithful, Register, Capacity;
      TableWithinCapacity(Next(s, ops[0]), ops[1..], maxActive);
    }
  }

  /** The same from the start: with fixed limits the map stays within its configured capacity in every run. */
  lemma CapacityInEveryRun(clock: real, cutoff: real, ops: seq<Op>, maxActive: int)
    requires Legal(Init(clock, cutoff), ops) && SameMaxActive(ops, maxActive)
    ensures var n := |After(Init(clock, cutoff), ops).tables.windows.items|;
            n <= 65536 && (n <= 1024 || n <= 4 * maxActive)
  {
    TableWithinCapacity(Init(clock, cutoff), ops, maxActive);
  }

  /** Addresses whose latest accepted time is inside the window. */
  ghost function LiveWindows(items: map<Ip, seq<real>>, cutoff: real): (r: set<Ip>) {
    set ip | ip in items && items[ip] != [] && items[ip][|items[ip]| - 1] > cutoff
  }

  lemma LiveWindowsStay(t: Tables, cutoff: real)
    requires TablesOk(t)
    ensures |EvictStale(t, cutoff).windows.items| == |LiveWindows(t.windows.items, cutoff)|
  {
    EvictStaleExact(t, cutoff);
    var e := EvictStale(t, cutoff).windows.items;
    forall ip | ip in t.windows.items ensures t.windows.items[ip] != [] {}
    hide EvictStale, TablesOk;
    forall ip ensures ip in e.Keys <==> ip in LiveWindows(t.windows.items, cutoff) {}
    assert e.Keys == LiveWindows(t.windows.items, cutoff);
    assert |e| == |e.Keys|;
  }

  /** Nobody loses a live window unless the live windows fill the table. */
  lemma ForgetsOnlyWhenFull(s: Limiter, c: Call)
    requires Inv(s) && Timely(s, c) && Enabled(c)
    requires var live := |LiveWindows(s.tables.windows.items, c.now - c.window as real)|;
             live < 1024 || (live < 4 * c.maxActive && live < 65536)
    ensures Register(s, c).0.past.forgotten == s.past.forgotten
  {
    var cutoff := Cutoff(c);
    hide TablesOk, EvictStale, PastOk, Faithful, Register, PushedOut, LiveWindows, Touch;
    LiveWindowsStay(s.tables, cutoff);
    RoomFor(c.maxActive, |LiveWindows(s.tables.windows.items, cutoff)|);
    hide Capacity;
    NobodyPushedOut(s.tables, c);
    NothingForgotten(s, c);
  }

  lemma RoomFor(maxActive: int, n: nat)
    requires n < 1024 || (n < 4 * maxActive && n < 65536)
    ensures n < Capacity(maxActive)
  {
  }

  lemma NothingForgotten(s: Limiter, c: Call)
    requires Enabled(c) && PushedOut(s.tables, Touch(s.tables, c), Cutoff(c)) == {}
    ensures Register(s, c).0.past.forgotten == s.past.forgotten
  {
    hide PushedOut, Touch, Append, Cleared;
    ForgetNothing(s.past);
  }

  lemma NobodyPushedOut(t: Tables, c: Call)
    requires TablesOk(t) && |EvictStale(t, Cutoff(c)).windows.items| < Capacity(c.maxActive)
    ensures PushedOut(t, Touch(t, c), Cutoff(c)) == {}
  {
    EvictStaleExact(t, Cutoff(c));
    MakeRoomOk(EvictStale(t, Cutoff(c)), Capacity(c.maxActive));
    hide TablesOk, EvictStale, MakeRoom, Trim, Minus;
  }

  // ----- who is pushed out -----

  /** The address has no window, or one among the `n` most recently used. */
  ghost predicate Recent(t: Tables, ip: Ip, n: int) {
    ip in t.windows.items ==> AmongLast(t.windows.order, ip, n)
  }

  lemma {:induction false} EvictRecent(t: Tables, cutoff: real, ip: Ip, n: int)
    requires TablesOk(t) && Recent(t, ip, n)
    ensures Recent(EvictStale(t, cutoff), ip, n)
    decreases |t.expiry|
  {
    if t.expiry != [] {
      HeadWindow(t);
      var u := Tables(Pop(t.windows, t.expiry[0]), t.expiry[1..]);
      if EvictStale(t, cutoff) != t {
        EvictHead(t);
        if ip in u.windows.items { MinusAmongLast(t.windows.order, {t.expiry[0]}, ip, n); }
        hide TablesOk, AmongLast;
        EvictRecent(u, cutoff, ip, n);
      }
    }
  }

  /** Making room spares the most recently used. */
  lemma {:induction false} MakeRoomRecent(t: Tables, capacity: nat, ip: Ip, n: int)
    requires TablesOk(t) && Recent(t, ip, n) && n < capacity
    ensures Recent(MakeRoom(t, capacity), ip, n)
    ensures ip in t.windows.items ==> ip in MakeRoom(t, capacity).windows.items
    decreases |t.windows.order|
  {
    if |t.windows.order| >= capacity && capacity > 0 {
      var order := t.windows.order;
      PopFirstValid(t.windows);
      DropOk(t, PopOldest(t), order[0]);
      if ip in t.windows.items {
        SuffixAmongLast(order, ip, n, |order| - 1);
        assert order[|order| - (|order| - 1)..] == order[1..];
        AmongIsIn(order[1..], ip, n);
        StillThere(t, ip);
      }
      hide TablesOk, AmongLast;
      MakeRoomRecent(PopOldest(t), capacity, ip, n);
    }
  }

  lemma StillThere(t: Tables, ip: Ip)
    requires TablesOk(t) && t.windows.order != [] && ip in t.windows.items && ip in t.windows.order[1..]
    ensures ip in PopOldest(t).windows.items
  {
    var j :| 0 <= j < |t.windows.order[1..]| && t.windows.order[1..][j] == ip;
    assert t.windows.order[j + 1] == ip;
  }

  lemma PutRecent(t: Tables, x: Ip, w: seq<real>, ip: Ip, n: nat)
    requires Recent(t, ip, n)
    ensures Recent(t.(windows := PutLast(t.windows, x, w)), ip, n + 1)
  {
    if ip == x {
      var o := Without(t.windows.order, x) + [x];
      assert o[|o| - 1] == ip;
    } else if ip in t.windows.items {
      PutAmongLast(t.windows.order, x, ip, n);
    }
  }

  lemma TouchRecent(t: Tables, c: Call, ip: Ip, n: nat)
    requires TablesOk(t) && Recent(t, ip, n) && n < 1024
    ensures Recent(Touch(t, c), ip, n + 1)
    ensures ip !in PushedOut(t, Touch(t, c), Cutoff(c))
  {
    var e := EvictStale(t, Cutoff(c));
    EvictStaleExact(t, Cutoff(c));
    EvictRecent(t, Cutoff(c), ip, n);
    hide TablesOk, Recent, EvictStale;
    if c.ip in e.windows.items {
      PutRecent(e, c.ip, Trim(e.windows.items[c.ip], Cutoff(c)), ip, n);
    } else {
      MakeRoomRecent(e, Capacity(c.maxActive), ip, n);
      PutRecent(MakeRoom(e, Capacity(c.maxActive)), c.ip, [], ip, n);
      hide MakeRoom;
    }
  }

  lemma RegisterRecent(s: Limiter, c: Call, ip: Ip, n: nat)
    requires TablesOk(s.tables) && Recent(s.tables, ip, n) && n < 1024 && Enabled(c) && ip !in s.past.forgotten
    ensures var r := Register(s, c).0; Recent(r.tables, ip, n + 1) && ip !in r.past.forgotten
  {
    TouchRecent(s.tables, c, ip, n);
    hide TablesOk, Touch, PushedOut;
  }

  /**
   Protection from churn: while the rate rule is on, an address is not forgotten before 1024
   attempts by others have come since it was last among the most recently used, refused ones
   of its own included.
   */
  lemma {:induction false} HotStays(s: Limiter, ops: seq<Op>, ip: Ip, n: nat)
    requires Inv(s) && Legal(s, ops) && ip !in s.past.forgotten && Recent(s.tables, ip, n) && n + |ops| <= 1024
    requires forall i :: 0 <= i < |ops| && ops[i].Connect? ==> Enabled(ops[i].call)
    ensures ip !in After(s, ops).past.forgotten && Recent(After(s, ops).tables, ip, n + |ops|)
    decreases |ops|
  {
    if ops != [] {
      if ops[0].Connect? {
        RegisterInv(s, ops[0].call);
        RegisterRecent(s, ops[0].call, ip, n);
      }
      RecentMore(Next(s, ops[0]).tables, ip, n, n + 1);
      hide Inv, Register, Recent, Enabled;
      HotStays(Next(s, ops[0]), ops[1..], ip, n + 1);
    }
  }

  lemma RecentMore(t: Tables, ip: Ip, n: int, m: int)
    requires n <= m
    ensures Recent(t, ip, n) ==> Recent(t, ip, m)
  {
  }

  /** An attempt that reaches the rate rule makes its address the most recently used, accepted or not. */
  lemma AttemptRefreshes(s: Limiter, c: Call)
    requires Judged(s, c) && Enabled(c)
    ensures var t := Register(s, c).0.tables; c.ip in t.windows.items && Recent(t, c.ip, 1)
  {
    var t := Touch(s.tables, c);
    assert t.windows.order != [] && t.windows.order[|t.windows.order| - 1] == c.ip;
    hide Touch, EvictStale, MakeRoom;
  }

  /** All attempts use one positive window length, at non-decreasing times from `clock` on. */
  ghost predicate Steady(ops: seq<Op>, clock: real, window: int) {
    ops == []
    || (ops[0].Disconnect? && Steady(ops[1..], clock, window))
    || (ops[0].Connect? && ops[0].call.window == window && clock <= ops[0].call.now && Steady(ops[1..], ops[0].call.now, window))
  }

  lemma {:induction false} SteadyIsLegal(s: Limiter, ops: seq<Op>, clock: real, window: int)
    requires Steady(ops, clock, window) && s.clock <= clock && s.cutoff <= clock - window as real
    ensures Legal(s, ops)
    decreases |ops|
  {
    if ops != [] {
      var t := if ops[0].Connect? then ops[0].call.now else clock;
      SteadyIsLegal(Next(s, ops[0]), ops[1..], t, window);
    }
  }
}
