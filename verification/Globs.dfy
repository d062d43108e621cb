/** Mailbox patterns: the bracket-free globs of `*` and `?` that key grants are made of. */
module Globs {
  import opened Seqs

  /** Point check of an address against a pattern. */
  function Matches(s: string, p: string): (b: bool)
    decreases |s| + |p|
  {
    if p == "" then s == ""
    else if p[0] == '*' then Matches(s, p[1..]) || (s != "" && Matches(s[1..], p))
    else s != "" && (p[0] == '?' || p[0] == s[0]) && Matches(s[1..], p[1..])
  }

  // ----- what a pattern means -----

  /** The text one pattern character stands for. */
  predicate Stands(piece: string, c: char) {
    c == '*' || (|piece| == 1 && (c == '?' || piece[0] == c))
  }

  function Join(pieces: seq<string>): (s: string) {
    if pieces == [] then "" else pieces[0] + Join(pieces[1..])
  }

  ghost predicate Reads(pieces: seq<string>, p: string) {
    |pieces| == |p| && forall k :: 0 <= k < |p| ==> Stands(pieces[k], p[k])
  }

  /** `s` can be cut into one piece per pattern character, each standing for its character. */
  ghost predicate InLanguage(s: string, p: string) {
    exists pieces :: Reads(pieces, p) && Join(pieces) == s
  }

  lemma JoinCons(x: string, rest: seq<string>)
    ensures Join([x] + rest) == x + Join(rest)
  {
    assert ([x] + rest)[1..] == rest;
  }

  lemma {:induction false} MatchesSound(s: string, p: string) returns (pieces: seq<string>)
    requires Matches(s, p)
    ensures Reads(pieces, p) && Join(pieces) == s
    decreases |s| + |p|
  {
    if p == "" {
      pieces := [];
    } else if p[0] == '*' && !Matches(s, p[1..]) {
      var more := MatchesSound(s[1..], p);
      pieces := [s[..1] + more[0]] + more[1..];
      JoinCons(s[..1] + more[0], more[1..]);
      assert s == s[..1] + s[1..];
    } else {
      var head := if p[0] == '*' then "" else s[..1];
      var rest := MatchesSound(s[|head|..], p[1..]);
      pieces := [head] + rest;
      JoinCons(head, rest);
      assert s == head + s[|head|..];
    }
  }

  lemma {:induction false} MatchesComplete(pieces: seq<string>, p: string)
    requires Reads(pieces, p)
    ensures Matches(Join(pieces), p)
    decreases |p|, |Join(pieces)|
  {
    if p != "" {
      var rest := pieces[1..];
      MatchesComplete(rest, p[1..]);
      if p[0] == '*' {
        StarAbsorbs(pieces[0], Join(rest), p);
      } else {
        assert Join(pieces)[1..] == Join(rest);
      }
    }
  }

  lemma {:induction false} StarAbsorbs(x: string, s: string, p: string)
    requires p != "" && p[0] == '*' && Matches(s, p[1..])
    ensures Matches(x + s, p)
  {
    if x == "" {
      assert x + s == s;
    } else {
      StarAbsorbs(x[1..], s, p);
      assert (x + s)[1..] == x[1..] + s;
    }
  }

  /** The backtracking check decides the language of the pattern. */
  lemma MatchesIffInLanguage(s: string, p: string)
    ensures Matches(s, p) <==> InLanguage(s, p)
  {
    if Matches(s, p) {
      var pieces := MatchesSound(s, p);
    }
    if InLanguage(s, p) {
      var pieces :| Reads(pieces, p) && Join(pieces) == s;
      MatchesComplete(pieces, p);
    }
  }

  predicate Literal(p: string) {
    '*' !in p && '?' !in p
  }

  /** A bracket-free literal matches only itself. */
  lemma {:induction false} LiteralMatchesItself(s: string, p: string)
    requires Literal(p)
    ensures Matches(s, p) <==> s == p
  {
    if p != "" {
      assert p == [p[0]] + p[1..];
      if s != "" {
        assert s == [s[0]] + s[1..];
        LiteralMatchesItself(s[1..], p[1..]);
      }
    }
  }

  // ----- normalising the patterns of a request -----

  /** The characters Python's `str.strip` removes. */
  predicate Space(c: char) {
    '\t' <= c <= '\r' || '\U{1c}' <= c <= ' ' || c == '\U{85}' || c == '\U{a0}' || c == '\U{1680}'
    || '\U{2000}' <= c <= '\U{200a}' || c == '\U{2028}' || c == '\U{2029}' || c == '\U{202f}'
    || c == '\U{205f}' || c == '\U{3000}'
  }

  /** Written out, code point by code point. */
  lemma SpaceIs(c: char)
    ensures Space(c) <==> c as int in {0x09, 0x0A, 0x0B, 0x0C, 0x0D, 0x1C, 0x1D, 0x1E, 0x1F, 0x20, 0x85, 0xA0, 0x1680,
                                       0x2000, 0x2001, 0x2002, 0x2003, 0x2004, 0x2005, 0x2006, 0x2007, 0x2008, 0x2009, 0x200A,
                                       0x2028, 0x2029, 0x202F, 0x205F, 0x3000}
  {
  }

  function Strip(s: string): (r: string)
    ensures r == "" || (!Space(r[0]) && !Space(r[|r| - 1]))
    decreases |s|
  {
    if s == "" then ""
    else if Space(s[0]) then Strip(s[1..])
    else if Space(s[|s| - 1]) then Strip(s[..|s| - 1])
    else s
  }

  function Ats(p: string): (n: nat) {
    if p == "" then 0 else Ats(p[1..]) + if p[0] == '@' then 1 else 0
  }

  predicate BracketFree(p: string) {
    '[' !in p && ']' !in p
  }

  predicate WellFormed(p: string) {
    && 0 < |p| <= 320
    && (forall k :: 0 <= k < |p| ==> p[k] >= ' ')
    && BracketFree(p)
    && Ats(p) == 1
  }

  ghost predicate AllSpace(s: string) {
    forall k :: 0 <= k < |s| ==> Space(s[k])
  }

  lemma SpaceConcat(a: string, b: string)
    requires AllSpace(a) && AllSpace(b)
    ensures AllSpace(a + b)
  {
  }

  lemma Wrapped(a: string, b: string, m: string, c: string, d: string)
    ensures a + (b + m + c) + d == (a + b) + m + (c + d)
  {
  }

  lemma StripsOne(s: string) returns (head: string, rest: string, last: string)
    requires s != "" && (Space(s[0]) || Space(s[|s| - 1]))
    ensures Strip(s) == Strip(rest) && s == head + rest + last && AllSpace(head) && AllSpace(last) && |rest| < |s|
  {
    if Space(s[0]) {
      head, rest, last := s[..1], s[1..], "";
    } else {
      head, rest, last := "", s[..|s| - 1], s[|s| - 1..];
    }
    hide Space;
  }

  /** What is stripped is white space at both ends, as much as there is. */
  lemma {:induction false} StripIs(s: string) returns (before: string, after: string)
    ensures s == before + Strip(s) + after && AllSpace(before) && AllSpace(after)
    ensures Strip(s) == "" || (!Space(Strip(s)[0]) && !Space(Strip(s)[|Strip(s)| - 1]))
    decreases |s|
  {
    if s == "" || (!Space(s[0]) && !Space(s[|s| - 1])) {
      before, after := "", "";
    } else {
      var head, rest, last := StripsOne(s);
      hide Space, Strip, AllSpace;
      before, after := StripIs(rest);
      Wrapped(head, before, Strip(rest), after, last);
      SpaceConcat(head, before);
      SpaceConcat(after, last);
      before, after := head + before, after + last;
    }
  }

  lemma {:induction false} AtsConcat(a: string, b: string)
    ensures Ats(a + b) == Ats(a) + Ats(b)
  {
    if a == "" {
      assert a + b == b;
    } else {
      assert (a + b)[1..] == a[1..] + b;
      AtsConcat(a[1..], b);
    }
  }

  lemma {:induction false} NoAts(a: string)
    ensures Ats(a) == 0 <==> '@' !in a
  {
    if a != "" {
      NoAts(a[1..]);
      assert a == [a[0]] + a[1..];
    }
  }

  lemma {:induction false} FirstAt(p: string) returns (k: nat)
    requires Ats(p) >= 1
    ensures k < |p| && p[k] == '@'
  {
    if p[0] == '@' { return 0; }
    k := FirstAt(p[1..]);
    k := k + 1;
  }

  /** A well-formed pattern: two parts without @ around one, of 320 characters at most, no control character, no bracket. */
  lemma WellFormedIff(p: string)
    ensures WellFormed(p) <==>
            && |p| <= 320
            && (forall c :: c in p ==> c >= ' ' && c != '[' && c != ']')
            && (exists name: string, host: string :: p == name + "@" + host && '@' !in name && '@' !in host)
  {
    if Ats(p) == 1 {
      var k := FirstAt(p);
      var name, host := p[..k], p[k + 1..];
      assert p == name + "@" + host;
      AtsOf(name, host);
      NoAts(name);
      NoAts(host);
    }
    if name: string, host: string :| p == name + "@" + host && '@' !in name && '@' !in host {
      AtsOf(name, host);
      NoAts(name);
      NoAts(host);
    }
    if forall c :: c in p ==> c >= ' ' {
      forall k | 0 <= k < |p| ensures p[k] >= ' ' { assert p[k] in p; }
    }
  }

  lemma AtsOf(name: string, host: string)
    ensures Ats(name + "@" + host) == Ats(name) + 1 + Ats(host)
  {
    AtsConcat(name + "@", host);
    AtsConcat(name, "@");
    assert "@"[1..] == "";
  }

  const MAX_PATTERNS: nat := 100

  ghost predicate Acceptable(values: seq<string>) {
    |values| <= 100 && forall i :: 0 <= i < |values| ==> WellFormed(Strip(values[i]))
  }

  /** `x` first occurs at position `k` of the stripped values. */
  ghost predicate FirstSeen(x: string, values: seq<string>, k: nat) {
    k < |values| && Strip(values[k]) == x && forall m :: 0 <= m < k ==> Strip(values[m]) != x
  }

  ghost predicate Unique(s: seq<string>) {
    forall i, j :: 0 <= i < j < |s| ==> s[i] != s[j]
  }

  ghost predicate Given(x: string, values: seq<string>) {
    exists i :: 0 <= i < |values| && x == Strip(values[i])
  }

  /** Normalised patterns: the stripped inputs without repeats, or nothing if any is malformed. */
  method NormalizeMailboxPatterns(values: seq<string>) returns (r: Option<seq<string>>)
    ensures r.Some? <==> Acceptable(values)
    ensures r.Some? ==> Unique(r.value) && (forall x :: x in r.value ==> WellFormed(x))
    ensures r.Some? ==> forall x :: x in r.value <==> Given(x, values)
    ensures r.Some? ==> forall i, j, m, n :: (0 <= i < j < |r.value| && FirstSeen(r.value[i], values, m)
                                              && FirstSeen(r.value[j], values, n)) ==> m < n
  {
    hide WellFormed, Strip;
    if |values| > MAX_PATTERNS { return None; }
    var kept: seq<string> := [];
    ghost var at: seq<nat> := [];
    for i := 0 to |values|
      invariant Unique(kept)
      invariant |at| == |kept|
      invariant forall k :: 0 <= k < |at| ==> at[k] < i && FirstSeen(kept[k], values, at[k])
      invariant forall k, l :: 0 <= k < l < |at| ==> at[k] < at[l]
      invariant forall k :: 0 <= k < i ==> WellFormed(Strip(values[k])) && Strip(values[k]) in kept
      invariant forall x :: x in kept ==> WellFormed(x) && Given(x, values)
    {
      var pattern := Strip(values[i]);
      if !WellFormed(pattern) { return None; }
      if pattern !in kept {
        assert FirstSeen(pattern, values, i);
        kept, at := kept + [pattern], at + [i];
      }
    }
    r := Some(kept);
    forall i, j, m, n | 0 <= i < j < |kept| && FirstSeen(kept[i], values, m) && FirstSeen(kept[j], values, n)
      ensures m < n
    {
      assert m == at[i] && n == at[j];
    }
  }
}
