/**
 The per-key rate limit: a token bucket for each key in a bounded, LRU-ordered table.
 Times are seconds, and a key of rate R earns R tokens a minute up to R.
 */
module TokenBucket {
  import opened Seqs
  import opened OrderedDict

  const MAX_ENTRIES: nat := 65536

  datatype Bucket = Bucket(tokens: real, last: real)

  datatype Slot = Absent | Present(bucket: Bucket)

  function PerSecond(rate: nat): (r: real) { rate as real / 60.0 }

  /** The tokens a stretch of time earns. */
  function Earned(t: real, rate: nat): (r: real) { t * PerSecond(rate) }

  function Min(a: real, b: real): (r: real) { if a < b then a else b }

  function Elapsed(last: real, now: real): (r: real) { if now > last then now - last else 0.0 }

  /** The tokens a call at `now` finds. */
  function Refill(s: Slot, rate: nat, now: real): (r: real) {
    match s
    case Absent => rate as real
    case Present(b) => Min(rate as real, b.tokens + Earned(Elapsed(b.last, now), rate))
  }

  /** One call: granted when a whole token is there; either way the time of the call is kept. */
  function Spend(s: Slot, rate: nat, now: real): (r: (Bucket, bool)) {
    var tokens := Refill(s, rate, now);
    if tokens < 1.0 then (Bucket(tokens, now), false) else (Bucket(tokens - 1.0, now), true)
  }

  // ----- one key over time -----

  /** What happens to a key: a call, or the loss of its bucket to eviction or invalidation. */
  datatype Step = Call(now: real) | Forget

  function After(s: Slot, rate: nat, steps: seq<Step>): (r: Slot)
    decreases |steps|
  {
    if steps == [] then s
    else if steps[0].Forget? then After(Absent, rate, steps[1..])
    else After(Present(Spend(s, rate, steps[0].now).0), rate, steps[1..])
  }

  function Grants(s: Slot, rate: nat, steps: seq<Step>): (n: nat)
    decreases |steps|
  {
    if steps == [] then 0
    else if steps[0].Forget? then Grants(Absent, rate, steps[1..])
    else
      var (b, ok) := Spend(s, rate, steps[0].now);
      (if ok then 1 else 0) + Grants(Present(b), rate, steps[1..])
  }

  ghost predicate Sound(s: Slot, rate: nat) {
    s.Present? ==> 0.0 <= s.bucket.tokens <= rate as real
  }

  ghost function Potential(s: Slot, rate: nat): (r: real) {
    if s.Absent? then rate as real else s.bucket.tokens
  }

  /** A full bucket for every loss. */
  ghost function Regained(steps: seq<Step>, rate: nat): (r: real) {
    if steps == [] then 0.0 else (if steps[0].Forget? then rate as real else 0.0) + Regained(steps[1..], rate)
  }

  /** The time for which tokens are credited: every step forward between consecutive calls. */
  ghost function Credited(s: Slot, steps: seq<Step>): (r: real)
    ensures r >= 0.0
    decreases |steps|
  {
    if steps == [] then 0.0
    else if steps[0].Forget? then Credited(Absent, steps[1..])
    else
      var now := steps[0].now;
      (if s.Absent? then 0.0 else Elapsed(s.bucket.last, now)) + Credited(Present(Bucket(0.0, now)), steps[1..])
  }

  lemma CreditedSame(s: Slot, t: Slot, steps: seq<Step>)
    requires s.Absent? == t.Absent? && (s.Present? ==> s.bucket.last == t.bucket.last)
    ensures Credited(s, steps) == Credited(t, steps)
  {
  }

  lemma EarnedNonNegative(rate: nat, t: real)
    requires t >= 0.0
    ensures Earned(t, rate) >= 0.0
  {
  }

  lemma EarnedAdds(rate: nat, a: real, b: real)
    ensures Earned(a + b, rate) == Earned(a, rate) + Earned(b, rate)
  {
  }

  /** Tokens stay between zero and the rate. */
  lemma SpendSound(s: Slot, rate: nat, now: real)
    requires Sound(s, rate)
    ensures Sound(Present(Spend(s, rate, now).0), rate)
    ensures 0.0 <= Refill(s, rate, now) <= rate as real
  {
    if s.Present? { EarnedNonNegative(rate, Elapsed(s.bucket.last, now)); }
  }

  lemma {:induction false} AfterSound(s: Slot, rate: nat, steps: seq<Step>)
    requires Sound(s, rate)
    ensures Sound(After(s, rate, steps), rate)
    decreases |steps|
  {
    if steps != [] {
      if steps[0].Forget? {
        AfterSound(Absent, rate, steps[1..]);
      } else {
        SpendSound(s, rate, steps[0].now);
        AfterSound(Present(Spend(s, rate, steps[0].now).0), rate, steps[1..]);
      }
    }
  }

  /** What is granted is covered by the tokens at hand, a full bucket per loss, and the credited time. */
  lemma {:induction false} GrantsCovered(s: Slot, rate: nat, steps: seq<Step>)
    requires Sound(s, rate)
    ensures Grants(s, rate, steps) as real
            <= Potential(s, rate) + Regained(steps, rate) + Earned(Credited(s, steps), rate)
    decreases |steps|
  {
    hide Earned;
    EarnedNonNegative(rate, 0.0);
    if steps == [] {
    } else if steps[0].Forget? {
      GrantsCovered(Absent, rate, steps[1..]);
    } else {
      var now := steps[0].now;
      var (b, ok) := Spend(s, rate, now);
      SpendSound(s, rate, now);
      GrantsCovered(Present(b), rate, steps[1..]);
      CreditedSame(Present(b), Present(Bucket(0.0, now)), steps[1..]);
      var rest := Credited(Present(b), steps[1..]);
      var here := if s.Absent? then 0.0 else Elapsed(s.bucket.last, now);
      EarnedAdds(rate, here, rest);
      EarnedNonNegative(rate, here);
      assert b.tokens + (if ok then 1.0 else 0.0) <= Potential(s, rate) + Earned(here, rate);
    }
  }

  // ----- intervals -----

  ghost predicate AllCalls(steps: seq<Step>) {
    forall i :: 0 <= i < |steps| ==> steps[i].Call?
  }

  /** The calls take the lock in the order of their time stamps. */
  ghost predicate Ordered(steps: seq<Step>) {
    forall i, j :: 0 <= i < j < |steps| && steps[i].Call? && steps[j].Call? ==> steps[i].now <= steps[j].now
  }

  /** Credited time is the time that passed exactly when the time stamps are in order; otherwise it is more. */
  lemma {:induction false} CreditedIffOrdered(start: real, steps: seq<Step>)
    requires AllCalls(steps)
    ensures var end := if steps == [] then start else steps[|steps| - 1].now;
            && Credited(Present(Bucket(0.0, start)), steps) >= end - start
            && ((Credited(Present(Bucket(0.0, start)), steps) == end - start)
                <==> (Ordered(steps) && (steps != [] ==> start <= steps[0].now)))
    decreases |steps|
  {
    if steps != [] {
      var rest := steps[1..];
      CreditedIffOrdered(steps[0].now, rest);
      assert forall i :: 0 <= i < |rest| ==> rest[i] == steps[i + 1];
      assert Ordered(steps) ==> Ordered(rest) && (rest != [] ==> steps[0].now <= rest[0].now);
      if Ordered(rest) && (rest != [] ==> steps[0].now <= rest[0].now) {
        forall i, j | 0 <= i < j < |steps| ensures steps[i].now <= steps[j].now {
          if i == 0 { assert steps[j] == rest[j - 1]; } else { assert steps[i] == rest[i - 1] && steps[j] == rest[j - 1]; }
        }
      }
    }
  }

  /** Refilling is absorbed by the call: a call sees the same tokens from the refilled bucket. */
  lemma RefillTwice(s: Slot, rate: nat, now: real)
    requires Sound(s, rate)
    ensures Spend(Present(Bucket(Refill(s, rate, now), now)), rate, now) == Spend(s, rate, now)
  {
    SpendSound(s, rate, now);
  }

  /**
   The bound for any stretch of calls without a loss: at most R plus R a minute for the
   credited time, whatever the order of the time stamps.
   */
  lemma StretchBound(s: Slot, rate: nat, steps: seq<Step>)
    requires Sound(s, rate) && steps != [] && AllCalls(steps)
    ensures Grants(s, rate, steps) as real
            <= rate as real + Earned(Credited(Present(Bucket(0.0, steps[0].now)), steps), rate)
  {
    hide Earned;
    var now := steps[0].now;
    var r := Present(Bucket(Refill(s, rate, now), now));
    SpendSound(s, rate, now);
    RefillTwice(s, rate, now);
    GrantsCovered(r, rate, steps);
    NothingRegained(steps, rate);
    CreditedSame(r, Present(Bucket(0.0, now)), steps);
  }

  lemma {:induction false} NothingRegained(steps: seq<Step>, rate: nat)
    requires AllCalls(steps)
    ensures Regained(steps, rate) == 0.0
  {
    if steps != [] { NothingRegained(steps[1..], rate); }
  }

  lemma EarnedIs(rate: nat, t: real)
    ensures Earned(t, rate) == rate as real * t / 60.0
  {
  }

  /** In lock order, t seconds grant at most R + R * t / 60 calls. */
  lemma IntervalBound(s: Slot, rate: nat, steps: seq<Step>, t: real)
    requires Sound(s, rate) && steps != [] && AllCalls(steps) && Ordered(steps)
    requires steps[|steps| - 1].now - steps[0].now <= t
    ensures Grants(s, rate, steps) as real <= rate as real + rate as real * t / 60.0
  {
    StretchBound(s, rate, steps);
    CreditedIffOrdered(steps[0].now, steps);
    var d := steps[|steps| - 1].now - steps[0].now;
    EarnedNonNegative(rate, t - d);
    EarnedAdds(rate, d, t - d);
    EarnedIs(rate, t);
    hide Earned, Grants, Credited, Ordered;
  }

  /**
   Out of order the bound fails: a late call moves the refill time back, and the time up to
   the next call is credited again. Rate 1, five calls within 60 seconds, three grants
   where the bound is two.
   */
  lemma LateStampOvergrants()
    ensures var s := Present(Bucket(1.0, 60.0)); var steps := [Call(60.0), Call(0.0), Call(60.0), Call(0.0), Call(60.0)];
            Sound(s, 1) && Within(steps, 60.0) && Grants(s, 1, steps) as real > 1.0 + 1.0 * 60.0 / 60.0
  {
    var full, spent, early := Present(Bucket(1.0, 60.0)), Present(Bucket(0.0, 60.0)), Present(Bucket(0.0, 0.0));
    assert Spend(full, 1, 60.0) == (Bucket(0.0, 60.0), true);
    assert Spend(spent, 1, 0.0) == (Bucket(0.0, 0.0), false);
    assert Earned(60.0, 1) == 1.0;
    assert Spend(early, 1, 60.0) == (Bucket(0.0, 60.0), true);
    hide Spend;
    var one := [Call(60.0)];
    assert one[1..] == [] && Grants(early, 1, one) == 1;
    var two := [Call(0.0)] + one;
    assert two[1..] == one && Grants(spent, 1, two) == 1;
    var three := [Call(60.0)] + two;
    assert three[1..] == two && Grants(early, 1, three) == 2;
    var four := [Call(0.0)] + three;
    assert four[1..] == three && Grants(spent, 1, four) == 2;
    var five := [Call(60.0)] + four;
    assert five[1..] == four && Grants(full, 1, five) == 3;
    assert five == [Call(60.0), Call(0.0), Call(60.0), Call(0.0), Call(60.0)];
  }

  // ----- how late a stamp may be -----

  /** All stamps lie within `t` seconds of each other. */
  ghost predicate Within(steps: seq<Step>, t: real) {
    forall i, j :: 0 <= i < |steps| && 0 <= j < |steps| && steps[i].Call? && steps[j].Call? ==> steps[i].now - steps[j].now <= t
  }

  /** No stamp is earlier than one before it by more than `d` seconds. */
  ghost predicate LateBy(steps: seq<Step>, d: real) {
    forall i, j :: 0 <= i < j < |steps| && steps[i].Call? && steps[j].Call? ==> steps[i].now - d <= steps[j].now
  }

  ghost predicate BoundHolds(s: Slot, rate: nat, steps: seq<Step>, t: real) {
    Grants(s, rate, steps) as real <= rate as real + rate as real * t / 60.0
  }

  /** The promised bound, for every run of calls whose stamps are late by at most `d`. */
  ghost predicate BoundTolerates(rate: nat, d: real) {
    forall s, steps, t :: Sound(s, rate) && steps != [] && AllCalls(steps) && LateBy(steps, d) && Within(steps, t) ==>
      BoundHolds(s, rate, steps, t)
  }

  /** Alternating between an early and a late stamp. */
  function Alternate(n: nat, e: real): (steps: seq<Step>)
    ensures |steps| == 2 * n
    ensures forall i :: 0 <= i < |steps| ==> steps[i] == Call(if i % 2 == 0 then 0.0 else e)
  {
    if n == 0 then [] else [Call(0.0), Call(e)] + Alternate(n - 1, e)
  }

  /** One alternation earns the same fraction of a token every time, out of no time at all. */
  lemma AlternateOnce(rate: nat, c: real, tokens: real, e: real, rest: seq<Step>)
    requires rate >= 1 && e > 0.0 && Earned(e, rate) == c && 0.0 <= tokens < 1.0 && tokens + c <= 1.0
    ensures Grants(Present(Bucket(tokens, e)), rate, [Call(0.0), Call(e)] + rest)
            == if tokens + c < 1.0 then Grants(Present(Bucket(tokens + c, e)), rate, rest)
               else 1 + Grants(Present(Bucket(0.0, e)), rate, rest)
  {
    var s, steps := Present(Bucket(tokens, e)), [Call(0.0), Call(e)] + rest;
    hide Earned;
    EarnedNonNegative(rate, 0.0);
    assert Earned(0.0, rate) == 0.0 by { EarnedIs(rate, 0.0); }
    assert Spend(s, rate, 0.0) == (Bucket(tokens, 0.0), false);
    var m := Present(Bucket(tokens, 0.0));
    assert steps[1..] == [Call(e)] + rest && steps[1..][1..] == rest;
    assert Spend(m, rate, e) == if tokens + c < 1.0 then (Bucket(tokens + c, e), false) else (Bucket(0.0, e), true);
  }

  /** `j` slices of size `c`. */
  function Slices(j: nat, c: real): (r: real) { j as real * c }

  lemma SlicesBelow(c: real, m: nat, j: nat)
    requires m >= 1 && c * m as real == 1.0 && j < m
    ensures 0.0 < c <= 1.0 && 0.0 <= Slices(j, c) < 1.0
    ensures Slices(j + 1, c) == Slices(j, c) + c <= 1.0 && (Slices(j + 1, c) < 1.0 <==> j + 1 < m)
  {
    assert c > 0.0;
    SlicesOrdered(c, j, m);
    SlicesOrdered(c, j + 1, m);
    SlicesOrdered(c, 1, m);
  }

  lemma SlicesOrdered(c: real, a: nat, b: nat)
    requires c > 0.0
    ensures Slices(a, c) >= 0.0 && (a <= b ==> Slices(a, c) <= Slices(b, c)) && (a < b ==> Slices(a, c) < Slices(b, c))
  {
    var d := b as real - a as real;
    assert Slices(b, c) == Slices(a, c) + d * c;
    assert d >= 0.0 ==> d * c >= 0.0;
    assert d > 0.0 ==> d * c > 0.0;
  }

  /** How often counting `n` further slices on from `j` completes a token of `m` slices. */
  ghost function Whole(j: nat, n: nat, m: nat): (k: nat)
    decreases n
  {
    if n == 0 then 0 else if j + 1 < m then Whole(j + 1, n - 1, m) else 1 + Whole(0, n - 1, m)
  }

  lemma {:induction false} WholeRound(j: nat, m: nat, x: nat)
    requires j < m
    ensures Whole(j, m - j + x, m) == 1 + Whole(0, x, m)
    decreases m - j
  {
    if j + 1 < m { WholeRound(j + 1, m, x); }
  }

  lemma {:induction false} WholeRounds(k: nat, m: nat)
    requires m >= 1
    ensures Whole(0, k * m, m) == k
  {
    if k > 0 {
      WholeRounds(k - 1, m);
      assert k * m == m + (k - 1) * m;
      WholeRound(0, m, (k - 1) * m);
    }
  }

  lemma {:induction false} AlternateGrants(rate: nat, m: nat, c: real, e: real, j: nat, n: nat)
    requires rate >= 1 && m >= 1 && e > 0.0 && Earned(e, rate) == c && c * m as real == 1.0 && j < m
    ensures Grants(Present(Bucket(Slices(j, c), e)), rate, Alternate(n, e)) == Whole(j, n, m)
    decreases n
  {
    hide Earned, Slices, Spend;
    SlicesBelow(c, m, j);
    if n > 0 {
      AlternateOnce(rate, c, Slices(j, c), e, Alternate(n - 1, e));
      if j + 1 < m {
        AlternateGrants(rate, m, c, e, j + 1, n - 1);
      } else {
        AlternateGrants(rate, m, c, e, 0, n - 1);
        NoSlices(c);
      }
    }
  }

  lemma NoSlices(c: real)
    ensures Slices(0, c) == 0.0
  {
  }

  /** However small the delay, stamps that are late by it overrun the bound. */
  lemma LateOverruns(rate: nat, d: real) returns (s: Slot, steps: seq<Step>, t: real)
    requires rate >= 1 && d > 0.0
    ensures Sound(s, rate) && steps != [] && AllCalls(steps) && LateBy(steps, d) && Within(steps, t)
    ensures !BoundHolds(s, rate, steps, t)
  {
    var m := FineEnough(rate, d);
    var e, c := SliceEarns(rate, m, d);
    var n := (rate + 2) * m;
    s, steps, t := Present(Bucket(0.0, e)), Alternate(n, e), e;
    NoSlices(c);
    AlternateGrants(rate, m, c, e, 0, n);
    WholeRounds(rate + 2, m);
    EarnedIs(rate, e);
    SlicesBelow(c, m, 0);
    assert n >= m by { assert (rate + 2) * m == m + (rate + 1) * m; }
    hide Earned, Grants, Slices, Whole;
    assert rate as real * e / 60.0 <= 1.0;
  }

  lemma FineEnough(rate: nat, d: real) returns (m: nat)
    requires rate >= 1 && d > 0.0
    ensures m >= 1 && m as real * (rate as real * d) >= 60.0
  {
    var x := rate as real * d;
    assert x > 0.0;
    var y := 60.0 / x;
    assert y * x == 60.0;
    m := y.Floor + 1;
    assert m as real >= y;
    assert (m as real - y) * x >= 0.0;
  }

  lemma SliceEarns(rate: nat, m: nat, d: real) returns (e: real, c: real)
    requires rate >= 1 && m >= 1 && m as real * (rate as real * d) >= 60.0
    ensures 0.0 < e <= d && Earned(e, rate) == c && c * m as real == 1.0
  {
    var r, k := rate as real, m as real;
    var z := r * k;
    e, c := 60.0 / z, 1.0 / k;
    assert z > 0.0;
    assert e * z == 60.0;
    assert d * z >= 60.0;
    assert (d - e) * z >= 0.0;
    assert e > 0.0;
    EarnedIs(rate, e);
    assert r * e * k == 60.0;
    assert (r * e / 60.0) * k == 1.0;
    assert c * k == 1.0;
    assert (r * e / 60.0 - c) * k == 0.0;
  }

  /** The bound tolerates no delay at all: it holds for all runs with stamps late by at most `d` exactly for d = 0. */
  lemma BoundIffInOrder(rate: nat, d: real)
    requires rate >= 1 && d >= 0.0
    ensures BoundTolerates(rate, d) <==> d == 0.0
  {
    if d == 0.0 {
      forall s: Slot, steps: seq<Step>, t: real | Sound(s, rate) && steps != [] && AllCalls(steps) && LateBy(steps, d) && Within(steps, t)
        ensures BoundHolds(s, rate, steps, t)
      {
        assert steps[|steps| - 1].now - steps[0].now <= t;
        assert Ordered(steps);
        IntervalBound(s, rate, steps, t);
      }
    } else {
      var s, steps, t := LateOverruns(rate, d);
    }
  }

  /** Each call comes at least 60 / R seconds after the one before. */
  ghost predicate Spaced(s: Slot, rate: nat, steps: seq<Step>)
    requires rate > 0
    decreases |steps|
  {
    steps == []
    || (steps[0].Call? && (s.Present? ==> steps[0].now - s.bucket.last >= 60.0 / rate as real)
        && Spaced(Present(Bucket(0.0, steps[0].now)), rate, steps[1..]))
  }

  lemma {:induction false} SpacedSame(s: Slot, t: Slot, rate: nat, steps: seq<Step>)
    requires rate > 0 && s.Present? && t.Present? && s.bucket.last == t.bucket.last && Spaced(s, rate, steps)
    ensures Spaced(t, rate, steps)
  {
  }

  lemma WholeToken(rate: nat, t: real)
    requires rate > 0 && t >= 60.0 / rate as real
    ensures t > 0.0 && Earned(t, rate) >= 1.0
  {
    var r := rate as real;
    assert 60.0 / r > 0.0;
    assert 60.0 / r * r == 60.0;
    assert (t - 60.0 / r) * r >= 0.0;
    assert t * r >= 60.0;
  }

  /** Calls spaced at least 60 / R seconds apart are never refused. */
  lemma {:induction false} SpacedNeverRefused(s: Slot, rate: nat, steps: seq<Step>)
    requires rate > 0 && Sound(s, rate) && Spaced(s, rate, steps)
    ensures Grants(s, rate, steps) == |steps|
    decreases |steps|
  {
    if steps != [] {
      var now := steps[0].now;
      if s.Present? { WholeToken(rate, now - s.bucket.last); }
      SpendSound(s, rate, now);
      var b := Spend(s, rate, now).0;
      SpacedSame(Present(Bucket(0.0, now)), Present(b), rate, steps[1..]);
      SpacedNeverRefused(Present(b), rate, steps[1..]);
    }
  }

  // ----- a burst -----

  /** `n` calls with one and the same stamp. */
  function Burst(n: nat, now: real): (steps: seq<Step>) {
    if n == 0 then [] else [Call(now)] + Burst(n - 1, now)
  }

  /** What a bucket holds at `now`: a new one is full, an old one has gained R tokens a minute since, up to R. */
  ghost function Holds(s: Slot, rate: nat, now: real): (r: real) {
    var full := rate as real;
    if s.Absent? then full
    else
      var gained := if s.bucket.last <= now then s.bucket.tokens + rate as real * (now - s.bucket.last) / 60.0 else s.bucket.tokens;
      if gained <= full then gained else full
  }

  lemma RefillIs(s: Slot, rate: nat, now: real)
    ensures Refill(s, rate, now) == Holds(s, rate, now)
  {
    if s.Present? { EarnedIs(rate, Elapsed(s.bucket.last, now)); }
    hide Earned;
  }

  /** How many of `n` calls whole tokens pay for. */
  function Paid(tokens: real, n: nat): (k: int) {
    if n <= tokens.Floor then n else tokens.Floor
  }

  lemma PaidOne(tokens: real, n: nat)
    requires n > 0 && tokens >= 0.0
    ensures tokens < 1.0 ==> Paid(tokens, n) == 0 == Paid(tokens, n - 1)
    ensures tokens >= 1.0 ==> Paid(tokens, n) == 1 + Paid(tokens - 1.0, n - 1)
  {
    assert (tokens - 1.0).Floor == tokens.Floor - 1;
  }

  lemma {:induction false} BurstFrom(s: Slot, tokens: real, rate: nat, n: nat, now: real)
    requires Refill(s, rate, now) == tokens && 0.0 <= tokens <= rate as real
    ensures Grants(s, rate, Burst(n, now)) == Paid(tokens, n)
    ensures n > 0 ==> After(s, rate, Burst(n, now)) == Present(Bucket(tokens - Paid(tokens, n) as real, now))
    decreases n
  {
    if n > 0 {
      assert Burst(n, now)[1..] == Burst(n - 1, now);
      var left := if tokens < 1.0 then tokens else tokens - 1.0;
      var next := Present(Bucket(left, now));
      assert Spend(s, rate, now) == (Bucket(left, now), tokens >= 1.0);
      assert Refill(next, rate, now) == left by { RefillIs(next, rate, now); }
      PaidOne(tokens, n);
      hide Refill, Spend, Paid;
      BurstFrom(next, left, rate, n - 1, now);
    }
  }

  /**
   A burst is granted exactly the whole tokens there are: all R of a key without a bucket, and
   what is left stays in the bucket.
   */
  lemma BurstExact(s: Slot, rate: nat, n: nat, now: real)
    requires Sound(s, rate) && n > 0
    ensures var have := Holds(s, rate, now); var k := if n <= have.Floor then n else have.Floor;
            && Grants(s, rate, Burst(n, now)) == k
            && After(s, rate, Burst(n, now)) == Present(Bucket(have - k as real, now))
    ensures s.Absent? && n <= rate ==> Grants(s, rate, Burst(n, now)) == n
  {
    RefillIs(s, rate, now);
    SpendSound(s, rate, now);
    NewIsFull(s, rate, now);
    hide Refill, Holds, Sound;
    BurstFrom(s, Refill(s, rate, now), rate, n, now);
  }

  lemma NewIsFull(s: Slot, rate: nat, now: real)
    ensures s.Absent? ==> Holds(s, rate, now) == rate as real && Holds(s, rate, now).Floor == rate
  {
  }

  // ----- the table of all keys -----

  type Table = Dict<int, Bucket>

  datatype Op = Use(key: int, rate: int, now: real) | Invalidate(key: int)

  function Look(d: Table, key: int): (s: Slot) {
    if key in d.items then Present(d.items[key]) else Absent
  }

  /** A call under the usage lock; a key without a limit is always granted and keeps no bucket. */
  ghost function Record(d: Table, key: int, rate: int, now: real): (r: (Table, bool)) {
    if rate > 0 then
      var (b, ok) := Spend(Look(d, key), rate, now);
      (if ok then Shrink(PutLast(d, key, b), MAX_ENTRIES) else PutLast(d, key, b), ok)
    else (Pop(d, key), true)
  }

  ghost function Next(d: Table, op: Op): (r: Table) {
    match op
    case Use(key, rate, now) => Record(d, key, rate, now).0
    case Invalidate(key) => Pop(d, key)
  }

  /** What one operation means for `key`. */
  ghost function StepsFor(d: Table, op: Op, key: int): (r: seq<Step>) {
    if op.Use? && op.key == key && op.rate > 0 then [Call(op.now)]
    else if Look(Next(d, op), key).Absent? then [Forget]
    else []
  }

  ghost function TraceOf(d: Table, ops: seq<Op>, key: int): (r: seq<Step>)
    decreases |ops|
  {
    if ops == [] then [] else StepsFor(d, ops[0], key) + TraceOf(Next(d, ops[0]), ops[1..], key)
  }

  /** Calls of `key` that the table grants. */
  ghost function GrantsIn(d: Table, ops: seq<Op>, key: int): (n: nat)
    decreases |ops|
  {
    if ops == [] then 0
    else
      (if ops[0].Use? && ops[0].key == key && Record(d, key, ops[0].rate, ops[0].now).1 then 1 else 0)
      + GrantsIn(Next(d, ops[0]), ops[1..], key)
  }

  /** The bucket put last survives the eviction, and every other one survives as it was or is gone. */
  lemma PutActs(d: Table, k: int, b: Bucket, key: int)
    requires Valid(d)
    ensures var r := Shrink(PutLast(d, k, b), MAX_ENTRIES);
            Valid(r) && k in r.items && r.items[k] == b && (key != k && key in r.items ==> key in d.items && r.items[key] == d.items[key])
    ensures Valid(PutLast(d, k, b))
  {
    var p := PutLast(d, k, b);
    PutLastValid(d, k, b);
    assert p.order[|p.order| - 1] == k;
    assert AmongLast(p.order, k, 1);
    hide Valid, AmongLast, Minus;
    ShrinkValid(p, MAX_ENTRIES);
    ShrinkItems(p, MAX_ENTRIES);
    ShrinkKeeps(p, MAX_ENTRIES, k, 1);
    hide Shrink;
  }

  /** An operation acts on each key as its steps say. */
  lemma NextActs(d: Table, op: Op, key: int, rate: nat)
    requires Valid(d) && rate > 0 && (op.Use? && op.key == key ==> op.rate == rate)
    ensures Valid(Next(d, op))
    ensures Look(Next(d, op), key) == After(Look(d, key), rate, StepsFor(d, op, key))
  {
    hide Valid, Shrink, Minus, Spend;
    match op
    case Invalidate(k) => PopValid(d, k);
    case Use(k, r, now) =>
      if r <= 0 {
        PopValid(d, k);
      } else {
        PutActs(d, k, Spend(Look(d, k), r, now).0, key);
      }
  }

  lemma {:induction false} GrantsConcat(s: Slot, rate: nat, a: seq<Step>, b: seq<Step>)
    ensures Grants(s, rate, a + b) == Grants(s, rate, a) + Grants(After(s, rate, a), rate, b)
    decreases |a|
  {
    if a == [] {
      assert a + b == b;
    } else {
      assert (a + b)[1..] == a[1..] + b;
      GrantsConcat(if a[0].Forget? then Absent else Present(Spend(s, rate, a[0].now).0), rate, a[1..], b);
    }
  }

  lemma StepGrants(d: Table, op: Op, key: int, rate: nat)
    requires rate > 0 && (op.Use? && op.key == key ==> op.rate == rate)
    ensures Grants(Look(d, key), rate, StepsFor(d, op, key))
            == if op.Use? && op.key == key && Record(d, key, op.rate, op.now).1 then 1 else 0
  {
    var steps := StepsFor(d, op, key);
    if steps != [] {
      assert steps[1..] == [];
    }
    hide Shrink, PutLast, Refill;
  }

  /** In the shared table every key is limited as if it were alone, up to the losses of its bucket. */
  lemma {:induction false} TableActsPerKey(d: Table, ops: seq<Op>, key: int, rate: nat)
    requires Valid(d) && rate > 0
    requires forall i :: 0 <= i < |ops| && ops[i].Use? && ops[i].key == key ==> ops[i].rate == rate
    ensures GrantsIn(d, ops, key) == Grants(Look(d, key), rate, TraceOf(d, ops, key))
    decreases |ops|
  {
    if ops != [] {
      NextActs(d, ops[0], key, rate);
      StepGrants(d, ops[0], key, rate);
      hide Next, StepsFor, Record;
      TableActsPerKey(Next(d, ops[0]), ops[1..], key, rate);
      GrantsConcat(Look(d, key), rate, StepsFor(d, ops[0], key), TraceOf(Next(d, ops[0]), ops[1..], key));
    }
  }

  /** The bound for a key in any run of the table: a full bucket at first and after each loss, and the credited time. */
  lemma TableBound(d: Table, ops: seq<Op>, key: int, rate: nat)
    requires Valid(d) && rate > 0 && Sound(Look(d, key), rate)
    requires forall i :: 0 <= i < |ops| && ops[i].Use? && ops[i].key == key ==> ops[i].rate == rate
    ensures var trace := TraceOf(d, ops, key);
            GrantsIn(d, ops, key) as real
            <= rate as real + Regained(trace, rate) + Earned(Credited(Look(d, key), trace), rate)
  {
    var trace := TraceOf(d, ops, key);
    TableActsPerKey(d, ops, key, rate);
    GrantsCovered(Look(d, key), rate, trace);
    hide Earned, Grants, Credited, Regained;
  }

  // ----- who loses a bucket -----

  ghost function TableAfter(d: Table, ops: seq<Op>): (r: Table)
    decreases |ops|
  {
    if ops == [] then d else TableAfter(Next(d, ops[0]), ops[1..])
  }

  /** The table never holds more than 65536 buckets. */
  lemma {:induction false} TableSize(d: Table, ops: seq<Op>)
    requires Valid(d) && |d.items| <= 65536
    ensures Valid(TableAfter(d, ops)) && |TableAfter(d, ops).items| <= 65536
    decreases |ops|
  {
    if ops != [] {
      StepSize(d, ops[0]);
      hide Next, Valid;
      TableSize(Next(d, ops[0]), ops[1..]);
    }
  }

  lemma StepSize(d: Table, op: Op)
    requires Valid(d) && |d.items| <= 65536
    ensures Valid(Next(d, op)) && |Next(d, op).items| <= 65536
  {
    PopValid(d, op.key);
    SubsetSize((d.items - {op.key}).Keys, d.items.Keys);
    if op.Use? && op.rate > 0 {
      var (b, ok) := Spend(Look(d, op.key), op.rate, op.now);
      PutLastValid(d, op.key, b);
      ShrinkValid(PutLast(d, op.key, b), MAX_ENTRIES);
      if !ok {
        RefusedHasBucket(d, op.key, op.rate, op.now);
        assert d.items[op.key := b].Keys == d.items.Keys;
      }
      hide Shrink, Minus, Valid, Spend;
    }
  }

  /** Only a key that has a bucket is ever refused. */
  lemma RefusedHasBucket(d: Table, key: int, rate: nat, now: real)
    requires rate > 0 && !Spend(Look(d, key), rate, now).1
    ensures key in d.items
  {
  }

  /** The operation neither drops the key nor lifts its limit. */
  predicate Spares(op: Op, key: int) {
    op.key == key ==> op.Use? && op.rate > 0
  }

  ghost predicate Keeps(d: Table, key: int, n: int) {
    Valid(d) && key in d.items && AmongLast(d.order, key, n)
  }

  lemma StepKeeps(d: Table, op: Op, key: int, n: nat)
    requires Keeps(d, key, n) && Spares(op, key) && n < MAX_ENTRIES
    ensures Keeps(Next(d, op), key, n + 1)
    ensures op.key != key ==> Next(d, op).items[key] == d.items[key]
  {
    if op.Use? && op.rate > 0 {
      var (b, ok) := Spend(Look(d, op.key), op.rate, op.now);
      var p := PutLast(d, op.key, b);
      PutLastValid(d, op.key, b);
      if op.key == key {
        assert p.order[|p.order| - 1] == key;
        assert AmongLast(p.order, key, n + 1);
      } else {
        PutAmongLast(d.order, op.key, key, n);
      }
      ShrinkValid(p, MAX_ENTRIES);
      hide AmongLast, Spend, Minus;
      ShrinkKeeps(p, MAX_ENTRIES, key, n + 1);
      hide Shrink, Valid;
    } else {
      PopValid(d, op.key);
      MinusAmongLast(d.order, {op.key}, key, n);
      var w := Without(d.order, op.key);
      var i :| 0 <= i < |w| && w[i] == key && |w| - i <= n;
    }
  }

  /**
   A bucket is kept until its key is dropped or unlimited, or the table has been used so often
   since that 65536 others may be younger; until then the key is limited as if it were alone.
   */
  lemma {:induction false} BucketKept(d: Table, ops: seq<Op>, key: int, n: nat)
    requires Keeps(d, key, n) && n + |ops| <= 65536 && forall i :: 0 <= i < |ops| ==> Spares(ops[i], key)
    ensures Keeps(TableAfter(d, ops), key, n + |ops|)
    ensures AllCalls(TraceOf(d, ops, key))
    decreases |ops|
  {
    if ops != [] {
      var next := Next(d, ops[0]);
      StepKeeps(d, ops[0], key, n);
      var first := StepsFor(d, ops[0], key);
      assert AllCalls(first);
      hide Next, Keeps, StepsFor;
      BucketKept(next, ops[1..], key, n + 1);
      var rest := TraceOf(next, ops[1..], key);
      forall i | 0 <= i < |first + rest| ensures (first + rest)[i].Call? {}
    }
  }

  /** A call makes its key's bucket the youngest. */
  lemma UseRefreshes(d: Table, key: int, rate: nat, now: real)
    requires Valid(d) && rate > 0
    ensures Keeps(Record(d, key, rate, now).0, key, 1)
  {
    var (b, ok) := Spend(Look(d, key), rate, now);
    var p := PutLast(d, key, b);
    PutLastValid(d, key, b);
    assert p.order[|p.order| - 1] == key;
    assert AmongLast(p.order, key, 1);
    ShrinkValid(p, MAX_ENTRIES);
    hide AmongLast, Spend, Minus;
    ShrinkKeeps(p, MAX_ENTRIES, key, 1);
    hide Shrink, Valid;
  }

  // ----- the object -----

  class UsageBuckets {
    var buckets: Table

    constructor ()
      ensures buckets == Empty()
    {
      buckets := Empty();
    }

    /** One call of a key: says whether it is granted. */
    method RecordUse(key: int, rate: int, now: real) returns (granted: bool)
      modifies this
      ensures (buckets, granted) == Record(old(buckets), key, rate, now)
      ensures rate <= 0 ==> granted && buckets.items == old(buckets).items - {key}
    {
      hide PutLast;
      if rate > 0 {
        var capacity := rate as real;
        var tokens := capacity;
        if key in buckets.items {
          var b := buckets.items[key];
          var elapsed := if now - b.last > 0.0 then now - b.last else 0.0;
          tokens := Min(capacity, b.tokens + elapsed * (capacity / 60.0));
        }
        assert tokens == Refill(Look(buckets, key), rate, now);
        if tokens < 1.0 {
          buckets := PutLast(buckets, key, Bucket(tokens, now));
          return false;
        }
        buckets := PutLast(buckets, key, Bucket(tokens - 1.0, now));
        ghost var put := buckets;
        while |buckets.order| > MAX_ENTRIES
          invariant Shrink(buckets, MAX_ENTRIES) == Shrink(put, MAX_ENTRIES)
          decreases |buckets.order|
        {
          buckets := PopFirst(buckets);
        }
      } else {
        buckets := Pop(buckets, key);
      }
      granted := true;
    }

    method Drop(key: int)
      modifies this
      ensures buckets == Next(old(buckets), Invalidate(key))
    {
      buckets := Pop(buckets, key);
    }
  }
}
