/**
 Containment of API-key policies: when a principal may create or manage a key, and
 what the accepted key can then do that the principal could not.
 */
module Delegation {
  import opened Seqs
  import opened Globs
  import opened Networks

  /** A persisted or requested expiry, by what the two parsers make of its text. */
  datatype Expiry =
    | Absent                    // no value
    | Blank                     // empty or white space
    | Garbled                   // not a timestamp
    | Naive(micros: int)        // a timestamp without a time zone
    | Stamped(micros: int)      // a timestamp with a time zone

  datatype Cidr = Good(net: Network) | Malformed

  datatype Policy = Policy(
    scopes: seq<string>,
    domainMode: string,
    domainIds: seq<int>,
    patterns: seq<string>,
    rate: Option<int>,          // None: not a number
    cidrs: seq<Cidr>,
    expires: Expiry,
    allowHeader: bool,
    allowQuery: bool
  )

  datatype Client = NoIp | BadIp | Ip(address: Address)

  datatype Transport = Header | Query | OtherTransport

  datatype Request = Request(
    scope: string,
    domain: int,
    mailbox: string,
    client: Client,
    transport: Transport,
    now: int                    // seconds
  )

  // ----- what a key admits -----

  predicate EndsWith(s: string, suffix: string) {
    |suffix| <= |s| && s[|s| - |suffix|..] == suffix
  }

  /** The scope rule of a mutation: a read is also granted by the write of the same resource. */
  predicate HasScope(scopes: seq<string>, required: string) {
    required in scopes || (EndsWith(required, ".read") && required[..|required| - 5] + ".write" in scopes)
  }

  /** Expiry check at authentication: seconds resolution, and fail closed on anything unreadable. */
  predicate Due(e: Expiry, now: int) {
    match e
    case Absent => false
    case Blank => false
    case Garbled => true
    case Naive(_) => true
    case Stamped(t) => t / 1000000 <= now
  }

  predicate InSome(cidrs: seq<Cidr>, a: Address) {
    cidrs != [] && cidrs[0].Good? && (Contains(cidrs[0].net, a) || InSome(cidrs[1..], a))
  }

  predicate IpAllowed(cidrs: seq<Cidr>, client: Client) {
    cidrs == [] || (client.Ip? && InSome(cidrs, client.address))
  }

  predicate Authenticates(p: Policy, client: Client, transport: Transport, now: int) {
    && (match transport case Header => p.allowHeader case Query => p.allowQuery case OtherTransport => false)
    && !Due(p.expires, now)
    && (client == NoIp || IpAllowed(p.cidrs, client))
  }

  predicate DomainGranted(p: Policy, domain: int) {
    p.domainMode == "all" || (p.domainMode == "selected" && domain in p.domainIds)
  }

  predicate MailboxGranted(p: Policy, mailbox: string) {
    p.patterns == [] || exists k :: 0 <= k < |p.patterns| && Matches(mailbox, p.patterns[k])
  }

  /** The read-path check: the scope must be listed itself. */
  predicate MailboxAccess(p: Policy, mailbox: string, domain: int, required: string) {
    required in p.scopes && DomainGranted(p, domain) && MailboxGranted(p, mailbox)
  }

  /** The whole request: authentication, the usage check, and the grants with write implying read. */
  predicate Admits(p: Policy, r: Request) {
    && Authenticates(p, r.client, r.transport, r.now)
    && IpAllowed(p.cidrs, r.client)
    && HasScope(p.scopes, r.scope)
    && DomainGranted(p, r.domain)
    && MailboxGranted(p, r.mailbox)
  }

  /** The networks are searched in order; a malformed entry stops the search. */
  method RequestIpAllowed(cidrs: seq<Cidr>, client: Client) returns (ok: bool)
    ensures ok == IpAllowed(cidrs, client)
  {
    if cidrs == [] { return true; }
    if !client.Ip? { return false; }
    for i := 0 to |cidrs|
      invariant InSome(cidrs[i..], client.address) == InSome(cidrs, client.address)
    {
      if cidrs[i].Malformed? { return false; }
      if Contains(cidrs[i].net, client.address) { return true; }
    }
    ok := false;
  }

  // ----- when a child is accepted -----

  /** The read scope that a write scope brings with it. */
  function ReadOf(scope: string): (r: string)
    requires EndsWith(scope, ".write")
  {
    scope[..|scope| - 6] + ".read"
  }

  function Effective(scopes: seq<string>): (r: set<string>) {
    Elements(scopes) + (set s | s in scopes && EndsWith(s, ".write") :: ReadOf(s))
  }

  function Parsed(e: Expiry): (t: Option<int>) {
    match e
    case Naive(t) => Some(t)
    case Stamped(t) => Some(t)
    case _ => None
  }

  predicate RateWithin(parent: Option<int>, child: Option<int>) {
    && child.Some? && child.value >= 0
    && (parent.Some? && parent.value > 0 ==> 0 < child.value <= parent.value)
  }

  predicate AllGood(cidrs: seq<Cidr>) {
    forall i :: 0 <= i < |cidrs| ==> cidrs[i].Good?
  }

  predicate Housed(child: Network, parents: seq<Cidr>) {
    exists j :: 0 <= j < |parents| && parents[j].Good? && SubnetOf(child, parents[j].net)
  }

  predicate CidrsWithin(parent: seq<Cidr>, child: seq<Cidr>) {
    && AllGood(parent) && AllGood(child)
    && (parent == [] || (child != [] && forall i :: 0 <= i < |child| ==> Housed(child[i].net, parent)))
  }

  predicate ExpiryWithin(parent: Expiry, child: Expiry) {
    parent.Absent?
    || (Parsed(child).Some? && Parsed(parent).Some? && Parsed(child).value <= Parsed(parent).value)
  }

  predicate OperationalWithin(parent: Policy, child: Policy) {
    && RateWithin(parent.rate, child.rate)
    && CidrsWithin(parent.cidrs, child.cidrs)
    && ExpiryWithin(parent.expires, child.expires)
    && (child.allowHeader ==> parent.allowHeader)
    && (child.allowQuery ==> parent.allowQuery)
  }

  predicate ScopesWithin(parent: seq<string>, child: seq<string>) {
    forall s :: s in child ==> s in Effective(parent)
  }

  predicate DomainsWithin(parent: Policy, child: Policy) {
    if child.domainMode == "all" then parent.domainMode == "all"
    else if child.domainMode == "selected" then
      parent.domainMode == "all"
      || (forall d :: d in child.domainIds ==> parent.domainMode == "selected" && d in parent.domainIds)
    else child.domainMode == "none"
  }

  predicate Covered(pattern: string, parents: seq<string>) {
    pattern in parents
    || (Literal(pattern) && exists j :: 0 <= j < |parents| && Matches(pattern, parents[j]))
  }

  predicate PatternsWithin(parent: seq<string>, child: seq<string>) {
    parent == [] || (child != [] && forall k :: 0 <= k < |child| ==> Covered(child[k], parent))
  }

  predicate Within(parent: Policy, child: Policy) {
    && OperationalWithin(parent, child)
    && ScopesWithin(parent.scopes, child.scopes)
    && DomainsWithin(parent, child)
    && PatternsWithin(parent.patterns, child.patterns)
  }

  function Elements<T(==, !new)>(s: seq<T>): (r: set<T>)
    ensures forall x :: x in r <==> x in s
  {
    set x | x in s
  }

  lemma SubsetMeans(a: seq<int>, b: set<int>)
    ensures Elements(a) <= b <==> forall d :: d in a ==> d in b
  {
    if forall d :: d in a ==> d in b {
      forall d | d in Elements(a) ensures d in b { assert d in a; }
    } else {
      var d :| d in a && d !in b;
      assert d in Elements(a);
    }
  }

  /** The decision as it is computed: early exits, and one pass over the child's patterns. */
  method ApiKeyIsWithinPrincipal(principal: Policy, target: Policy) returns (ok: bool)
    ensures ok == Within(principal, target)
  {
    if !OperationalWithin(principal, target) { return false; }
    var effective := Effective(principal.scopes);
    if !(Elements(target.scopes) <= effective) { return false; }
    var allowed: Option<set<int>> :=
      if principal.domainMode == "all" then None
      else if principal.domainMode == "selected" then Some(Elements(principal.domainIds))
      else Some({});
    if target.domainMode == "all" {
      if allowed.Some? { return false; }
    } else if target.domainMode == "selected" {
      if allowed.Some? { SubsetMeans(target.domainIds, allowed.value); }
      if allowed.Some? && !(Elements(target.domainIds) <= allowed.value) { return false; }
    } else if target.domainMode != "none" {
      return false;
    }
    assert DomainsWithin(principal, target);
    if principal.patterns != [] {
      if target.patterns == [] { return false; }
      for k := 0 to |target.patterns|
        invariant forall i :: 0 <= i < k ==> Covered(target.patterns[i], principal.patterns)
      {
        var pattern := target.patterns[k];
        if pattern in principal.patterns { continue; }
        if '*' in pattern || '?' in pattern { return false; }
        if !exists j :: 0 <= j < |principal.patterns| && Matches(pattern, principal.patterns[j]) { return false; }
      }
    }
    ok := true;
  }

  // ----- each dimension, and exactly when its check is right -----

  lemma SuffixOf(base: string, suffix: string)
    ensures EndsWith(base + suffix, suffix) && (base + suffix)[..|base|] == base
  {
  }

  /** The set built for delegation is the set the authorization rule grants. */
  lemma EffectiveIsHasScope(scopes: seq<string>, s: string)
    ensures s in Effective(scopes) <==> HasScope(scopes, s)
  {
    if s in Effective(scopes) && s !in scopes {
      var w :| w in scopes && EndsWith(w, ".write") && s == ReadOf(w);
      SuffixOf(w[..|w| - 6], ".read");
      assert w == w[..|w| - 6] + ".write";
    }
    if HasScope(scopes, s) && s !in scopes {
      var w := s[..|s| - 5] + ".write";
      SuffixOf(s[..|s| - 5], ".write");
      assert s == s[..|s| - 5] + ".read";
      assert ReadOf(w) == s;
    }
  }

  lemma WriteIsNoRead(s: string)
    requires EndsWith(s, ".write")
    ensures !EndsWith(s, ".read")
  {
    assert s[|s| - 5] == s[|s| - 6..][1] == 'w';
    assert ".read"[0] == '.';
    assert s[|s| - 5..][0] != ".read"[0];
  }

  /** Containment of the listed scopes is containment of everything they grant. */
  lemma ScopesExact(parent: seq<string>, child: seq<string>)
    ensures ScopesWithin(parent, child) <==> forall s :: HasScope(child, s) ==> HasScope(parent, s)
  {
    forall s ensures s in Effective(parent) <==> HasScope(parent, s) { EffectiveIsHasScope(parent, s); }
    if ScopesWithin(parent, child) {
      forall s | HasScope(child, s) ensures HasScope(parent, s) {
        if s !in child {
          var w := s[..|s| - 5] + ".write";
          SuffixOf(s[..|s| - 5], ".write");
          WriteIsNoRead(w);
          assert HasScope(parent, w);
        }
      }
    }
    if forall s :: HasScope(child, s) ==> HasScope(parent, s) {
      forall s | s in child ensures s in Effective(parent) { assert HasScope(child, s); }
    }
  }

  function Bound(s: seq<int>): (m: int)
    ensures forall d :: d in s ==> d < m
  {
    if s == [] then 0
    else
      var m := Bound(s[1..]);
      assert forall d :: d in s ==> d == s[0] || d in s[1..];
      if s[0] < m then m else s[0] + 1
  }

  /** Domain containment is exact for every child whose mode is one of the three known ones. */
  lemma DomainsExact(parent: Policy, child: Policy)
    requires child.domainMode in {"none", "selected", "all"}
    ensures DomainsWithin(parent, child) <==> forall d :: DomainGranted(child, d) ==> DomainGranted(parent, d)
  {
    if child.domainMode == "all" && parent.domainMode != "all" {
      assert DomainGranted(child, Bound(parent.domainIds));
      assert !DomainGranted(parent, Bound(parent.domainIds));
    }
    if child.domainMode == "selected" {
      assert forall d :: d in child.domainIds <==> DomainGranted(child, d);
    }
  }

  lemma CoveredSound(pattern: string, parents: seq<string>, mailbox: string)
    requires Covered(pattern, parents) && Matches(mailbox, pattern)
    ensures exists j :: 0 <= j < |parents| && Matches(mailbox, parents[j])
  {
    if pattern in parents {
      var j :| 0 <= j < |parents| && parents[j] == pattern;
    } else {
      LiteralMatchesItself(mailbox, pattern);
    }
  }

  lemma PatternsSound(parent: Policy, child: Policy, mailbox: string)
    requires PatternsWithin(parent.patterns, child.patterns) && MailboxGranted(child, mailbox)
    ensures MailboxGranted(parent, mailbox)
  {
    if parent.patterns != [] {
      var k :| 0 <= k < |child.patterns| && Matches(mailbox, child.patterns[k]);
      CoveredSound(child.patterns[k], parent.patterns, mailbox);
    }
  }

  /** For a child made of literal addresses the pattern check is exact. */
  lemma PatternsExact(parent: Policy, child: Policy)
    requires child.patterns != [] && forall k :: 0 <= k < |child.patterns| ==> Literal(child.patterns[k])
    ensures PatternsWithin(parent.patterns, child.patterns)
            <==> forall m :: MailboxGranted(child, m) ==> MailboxGranted(parent, m)
  {
    if PatternsWithin(parent.patterns, child.patterns) {
      forall m | MailboxGranted(child, m) ensures MailboxGranted(parent, m) { PatternsSound(parent, child, m); }
    } else {
      var k :| 0 <= k < |child.patterns| && !Covered(child.patterns[k], parent.patterns);
      var m := child.patterns[k];
      LiteralMatchesItself(m, m);
      assert MailboxGranted(child, m) && !MailboxGranted(parent, m);
    }
  }

  /** With wildcards the check is only sufficient: this contained child is refused. */
  lemma WildcardChildRefused(mailbox: string)
    ensures !PatternsWithin(["a*@x"], ["a?@x"])
    ensures Matches(mailbox, "a?@x") ==> Matches(mailbox, "a*@x")
  {
    var child, parent := "a?@x", "a*@x";
    assert child[1] == '?' && parent[1] == '*';
    assert [child][0] == child && !Covered(child, [parent]);
    if Matches(mailbox, child) {
      assert child[1..] == "?@x" && child[1..][1..] == "@x";
      var m := mailbox[1..];
      assert Matches(m, child[1..]) && m != "";
      assert Matches(m[1..], "@x");
      assert parent[1..] == "*@x" && parent[1..][1..] == "@x";
      assert Matches(m[1..], parent[1..]);
      assert Matches(m, parent[1..]);
    }
  }

  /** The search finds an address in a listed network unless a malformed entry comes first. */
  lemma {:induction false} InSomeIff(cidrs: seq<Cidr>, a: Address)
    ensures InSome(cidrs, a) <==>
            exists i :: 0 <= i < |cidrs| && (forall j :: 0 <= j <= i ==> cidrs[j].Good?) && Contains(cidrs[i].net, a)
  {
    if cidrs != [] {
      var rest := cidrs[1..];
      InSomeIff(rest, a);
      if i :| 0 <= i < |cidrs| && (forall j :: 0 <= j <= i ==> cidrs[j].Good?) && Contains(cidrs[i].net, a) {
        if i > 0 { assert forall j :: 0 <= j < i ==> rest[j] == cidrs[j + 1]; }
      }
      if cidrs[0].Good? && InSome(rest, a) {
        var i :| 0 <= i < |rest| && (forall j :: 0 <= j <= i ==> rest[j].Good?) && Contains(rest[i].net, a);
        assert forall j :: 0 < j <= i + 1 ==> cidrs[j] == rest[j - 1];
      }
    }
  }

  lemma CidrsSound(parent: seq<Cidr>, child: seq<Cidr>, client: Client)
    requires CidrsWithin(parent, child) && IpAllowed(child, client)
    ensures IpAllowed(parent, client)
  {
    if parent != [] {
      InSomeIff(child, client.address);
      var i :| 0 <= i < |child| && Contains(child[i].net, client.address);
      var j :| 0 <= j < |parent| && SubnetOf(child[i].net, parent[j].net);
      SubnetIffAllAddresses(child[i].net, parent[j].net);
      InSomeIff(parent, client.address);
    }
  }

  /** Under a principal with one network, the network check is exact. */
  lemma CidrsExact(parent: Network, child: seq<Cidr>)
    requires AllGood(child) && child != []
    ensures CidrsWithin([Good(parent)], child)
            <==> forall client :: IpAllowed(child, client) ==> IpAllowed([Good(parent)], client)
  {
    var ps := [Good(parent)];
    if CidrsWithin(ps, child) {
      forall client | IpAllowed(child, client) ensures IpAllowed(ps, client) { CidrsSound(ps, child, client); }
    } else {
      var i :| 0 <= i < |child| && !Housed(child[i].net, ps);
      assert ps[0].Good? && !SubnetOf(child[i].net, ps[0].net);
      SubnetIffAllAddresses(child[i].net, parent);
      var a :| Contains(child[i].net, a) && !Contains(parent, a);
      InSomeIff(child, a);
      InSomeIff(ps, a);
      assert IpAllowed(child, Ip(a)) && !IpAllowed(ps, Ip(a));
    }
  }

  /** Under a principal with at most one network, the network check is exact for well-formed lists. */
  lemma CidrsDecided(parent: seq<Cidr>, child: seq<Cidr>)
    requires |parent| <= 1 && AllGood(parent) && AllGood(child)
    ensures CidrsWithin(parent, child) <==> forall client :: IpAllowed(child, client) ==> IpAllowed(parent, client)
  {
    if parent != [] {
      assert parent == [Good(parent[0].net)];
      if child == [] {
        assert IpAllowed(child, NoIp) && !IpAllowed(parent, NoIp);
      } else {
        CidrsExact(parent[0].net, child);
      }
    }
  }

  /** A timestamp with a zone is due from the second it lies in; one without, or no timestamp, is always due. */
  lemma DueIs(e: Expiry, now: int)
    ensures e.Stamped? ==> (Due(e, now) <==> e.micros < 1000000 * (now + 1))
    ensures e.Naive? || e.Garbled? ==> Due(e, now)
    ensures e.Absent? || e.Blank? ==> !Due(e, now)
  {
  }

  /** The instant a timestamp is compared by, in microseconds; both kinds parse. */
  ghost predicate NotLater(child: Expiry, parent: Expiry) {
    (child.Naive? || child.Stamped?) && (parent.Naive? || parent.Stamped?) && child.micros <= parent.micros
  }

  /**
   The expiry check accepts exactly a child that expires no later. Between timestamps with a
   zone, the child's in whole seconds, that is being due whenever the principal is.
   */
  lemma ExpiryDecided(parent: Expiry, child: Expiry)
    ensures ExpiryWithin(parent, child) <==> parent.Absent? || NotLater(child, parent)
    ensures parent.Stamped? && child.Stamped? && child.micros % 1000000 == 0 ==>
              (ExpiryWithin(parent, child) <==> forall now :: !Due(child, now) ==> !Due(parent, now))
  {
    if parent.Stamped? && child.Stamped? && child.micros % 1000000 == 0 {
      if forall now :: !Due(child, now) ==> !Due(parent, now) {
        assert !Due(child, child.micros / 1000000 - 1);
      }
    }
  }

  /**
   The expiry check compares parsed instants, the authentication check refuses a
   timestamp without a zone. An accepted child outlives its principal exactly when
   the principal's expiry has no zone and the child's has one.
   */
  lemma ExpiryExact(parent: Expiry, child: Expiry)
    requires ExpiryWithin(parent, child)
    ensures (forall now :: !Due(child, now) ==> !Due(parent, now)) <==> !(parent.Naive? && child.Stamped?)
  {
    if parent.Naive? && child.Stamped? {
      assert !Due(child, child.micros / 1000000 - 1);
    }
  }

  /** Whether a rate limit lets `calls` calls a minute through; zero means no limit. */
  predicate RateAllows(rate: int, calls: nat) { rate <= 0 || calls <= rate }

  /** The rate check accepts exactly a valid rate that lets no more calls through. */
  lemma RateDecided(parent: Option<int>, child: Option<int>)
    ensures RateWithin(parent, child) <==>
            && child.Some? && child.value >= 0
            && (parent.Some? ==> forall calls :: RateAllows(child.value, calls) ==> RateAllows(parent.value, calls))
  {
    if child.Some? && child.value >= 0 && parent.Some? && parent.value > 0 {
      assert RateAllows(child.value, if child.value == 0 then parent.value + 1 else child.value);
    }
  }

  /** The read scopes of `parent` are listed for every write scope, as far as `known` scopes go. */
  ghost predicate ReadClosed(parent: seq<string>, known: set<string>) {
    forall w :: w in parent && EndsWith(w, ".write") && ReadOf(w) in known ==> ReadOf(w) in parent
  }

  /** Some key with a mailbox grant can be accepted for `parent` at all. */
  ghost predicate Delegates(parent: Policy) {
    && AllGood(parent.cidrs)
    && (parent.expires.Absent? || Parsed(parent.expires).Some?)
    && (parent.domainMode == "all" || (parent.domainMode == "selected" && parent.domainIds != []))
  }

  /** A child that reads a mailbox its principal is refused. */
  lemma ChildReadsMore()
    ensures var parent := Policy(["mailboxes.write"], "all", [], [], Some(0), [], Absent, true, true);
            var child := parent.(scopes := ["mailboxes.read"]);
            && Within(parent, child)
            && MailboxAccess(child, "a@x", 1, "mailboxes.read")
            && !MailboxAccess(parent, "a@x", 1, "mailboxes.read")
  {
    var w := "mailboxes.write";
    assert EndsWith(w, ".write") && ReadOf(w) == "mailboxes.read" by {
      assert w == "mailboxes" + ".write";
      SuffixOf("mailboxes", ".write");
    }
    assert "mailboxes.read" != w by { assert "mailboxes.read"[10] != w[10]; }
    var parent := Policy([w], "all", [], [], Some(0), [], Absent, true, true);
    hide ReadOf, EndsWith;
    assert ScopesWithin(parent.scopes, [ReadOf(w)]) by { assert w in parent.scopes; }
  }

  // ----- the main results -----

  /**
   Soundness: whatever an accepted child admits, at any time, its principal admits.
   A principal that acts is not due, at the time `accepted`.
   */
  lemma DelegationSound(parent: Policy, child: Policy, accepted: int, r: Request)
    requires !Due(parent.expires, accepted) && Within(parent, child) && Admits(child, r)
    ensures Admits(parent, r)
    ensures parent.rate.Some? && parent.rate.value > 0 ==> 0 < child.rate.value <= parent.rate.value
  {
    ScopesExact(parent.scopes, child.scopes);
    DomainsExact(parent, child);
    PatternsSound(parent, child, r.mailbox);
    CidrsSound(parent.cidrs, child.cidrs, r.client);
    ExpiryExact(parent.expires, child.expires);
  }

  lemma ScopesCompose(a: seq<string>, b: seq<string>, c: seq<string>)
    requires ScopesWithin(a, b) && ScopesWithin(b, c)
    ensures ScopesWithin(a, c)
  {
    ScopesExact(a, b);
    ScopesExact(b, c);
    ScopesExact(a, c);
  }

  lemma CidrsCompose(a: seq<Cidr>, b: seq<Cidr>, c: seq<Cidr>)
    requires CidrsWithin(a, b) && CidrsWithin(b, c)
    ensures CidrsWithin(a, c)
  {
    if a != [] {
      forall i | 0 <= i < |c| ensures Housed(c[i].net, a) {
        var j :| 0 <= j < |b| && SubnetOf(c[i].net, b[j].net);
        assert Housed(b[j].net, a);
      }
    }
  }

  lemma PatternsCompose(a: seq<string>, b: seq<string>, c: seq<string>)
    requires PatternsWithin(a, b) && PatternsWithin(b, c)
    ensures PatternsWithin(a, c)
  {
    if a != [] {
      forall k | 0 <= k < |c| ensures Covered(c[k], a) {
        if c[k] in b {
          var j :| 0 <= j < |b| && b[j] == c[k];
          assert Covered(b[j], a);
        } else {
          var j :| 0 <= j < |b| && Matches(c[k], b[j]);
          assert Covered(b[j], a);
          CoveredSound(b[j], a, c[k]);
        }
      }
    }
  }

  /** Acceptance composes. */
  lemma WithinTransitive(a: Policy, b: Policy, c: Policy)
    requires Within(a, b) && Within(b, c)
    ensures Within(a, c)
  {
    ScopesCompose(a.scopes, b.scopes, c.scopes);
    CidrsCompose(a.cidrs, b.cidrs, c.cidrs);
    PatternsCompose(a.patterns, b.patterns, c.patterns);
    hide CidrsWithin, ScopesWithin, PatternsWithin;
  }

  ghost predicate Chain(ps: seq<Policy>) {
    forall i :: 0 <= i < |ps| - 1 ==> Within(ps[i], ps[i + 1])
  }

  lemma {:induction false} ChainWithin(ps: seq<Policy>)
    requires |ps| > 1 && Chain(ps)
    ensures Within(ps[0], ps[|ps| - 1])
  {
    hide Within;
    var n := |ps| - 1;
    if n > 1 {
      var shorter := ps[..n];
      forall i | 0 <= i < n - 1 ensures Within(shorter[i], shorter[i + 1]) {
        assert Within(ps[i], ps[i + 1]);
      }
      ChainWithin(shorter);
      WithinTransitive(ps[0], ps[n - 1], ps[n]);
    }
  }

  /** However long the chain of delegations, its last key stays within the first principal. */
  lemma ChainSound(ps: seq<Policy>, accepted: int, r: Request)
    requires |ps| > 1 && Chain(ps) && !Due(ps[0].expires, accepted) && Admits(ps[|ps| - 1], r)
    ensures Admits(ps[0], r)
  {
    ChainWithin(ps);
    DelegationSound(ps[0], ps[|ps| - 1], accepted, r);
  }

  // ----- what is accepted -----

  /** In no dimension does the child get more than its principal. */
  ghost predicate NoWider(parent: Policy, child: Policy) {
    && (forall s :: HasScope(child.scopes, s) ==> HasScope(parent.scopes, s))
    && (forall d :: DomainGranted(child, d) ==> DomainGranted(parent, d))
    && (forall m :: MailboxGranted(child, m) ==> MailboxGranted(parent, m))
    && (forall client :: IpAllowed(child.cidrs, client) ==> IpAllowed(parent.cidrs, client))
    && child.rate.Some? && child.rate.value >= 0
    && (parent.rate.Some? ==> forall calls :: RateAllows(child.rate.value, calls) ==> RateAllows(parent.rate.value, calls))
    && (parent.expires.Absent? || NotLater(child.expires, parent.expires))
    && (child.allowHeader ==> parent.allowHeader)
    && (child.allowQuery ==> parent.allowQuery)
  }

  /** Known modes, readable networks, at most one for the principal, and literal addresses where patterns are compared. */
  ghost predicate Comparable(parent: Policy, child: Policy) {
    && child.domainMode in {"none", "selected", "all"}
    && |parent.cidrs| <= 1 && AllGood(parent.cidrs) && AllGood(child.cidrs)
    && (parent.patterns == []
        || (child.patterns != [] && forall k :: 0 <= k < |child.patterns| ==> Literal(child.patterns[k])))
  }

  lemma PatternsDecided(parent: Policy, child: Policy)
    requires Comparable(parent, child)
    ensures PatternsWithin(parent.patterns, child.patterns) <==> forall m :: MailboxGranted(child, m) ==> MailboxGranted(parent, m)
  {
    if parent.patterns != [] { PatternsExact(parent, child); }
  }

  /** Delegation is exact: such a child is accepted if and only if it gets no more than its principal. */
  lemma WithinExact(parent: Policy, child: Policy)
    requires Comparable(parent, child)
    ensures Within(parent, child) <==> NoWider(parent, child)
  {
    ScopesExact(parent.scopes, child.scopes);
    DomainsExact(parent, child);
    PatternsDecided(parent, child);
    CidrsDecided(parent.cidrs, child.cidrs);
    RateDecided(parent.rate, child.rate);
    ExpiryDecided(parent.expires, child.expires);
    hide ScopesWithin, DomainsWithin, PatternsWithin, CidrsWithin, RateWithin, ExpiryWithin, HasScope, DomainGranted;
    hide MailboxGranted, IpAllowed, RateAllows, NotLater;
  }

  /** What a key admits, in terms of instants, address ranges, listed scopes and the language of its patterns. */
  lemma AdmitsIff(p: Policy, r: Request)
    ensures Admits(p, r) <==>
            && ((r.transport.Header? && p.allowHeader) || (r.transport.Query? && p.allowQuery))
            && (p.expires.Absent? || p.expires.Blank? || (p.expires.Stamped? && 1000000 * (r.now + 1) <= p.expires.micros))
            && (p.cidrs == [] || (r.client.Ip? && Reachable(p.cidrs, r.client.address)))
            && (r.scope in p.scopes || exists w :: w in p.scopes && EndsWith(w, ".write") && r.scope == ReadOf(w))
            && (p.domainMode == "all" || (p.domainMode == "selected" && r.domain in p.domainIds))
            && (p.patterns == [] || exists k :: 0 <= k < |p.patterns| && InLanguage(r.mailbox, p.patterns[k]))
  {
    DueIs(p.expires, r.now);
    EffectiveIsHasScope(p.scopes, r.scope);
    if r.client.Ip? { ReachableIff(p.cidrs, r.client.address); }
    MailboxGrantedIff(p, r.mailbox);
    hide Due, InSome, Reachable, HasScope, MailboxGranted, InLanguage, EndsWith;
  }

  /** Authentication alone: the transport must be allowed, the key not due, and a known address admitted. */
  lemma AuthenticatesIff(p: Policy, client: Client, transport: Transport, now: int)
    ensures Authenticates(p, client, transport, now) <==>
            && ((transport.Header? && p.allowHeader) || (transport.Query? && p.allowQuery))
            && (p.expires.Absent? || p.expires.Blank? || (p.expires.Stamped? && 1000000 * (now + 1) <= p.expires.micros))
            && (client.NoIp? || p.cidrs == [] || (client.Ip? && Reachable(p.cidrs, client.address)))
  {
    DueIs(p.expires, now);
    if client.Ip? { ReachableIff(p.cidrs, client.address); }
    hide Due, InSome, Reachable;
  }

  /** The address lies between the ends of a listed network, and no malformed entry stands before that. */
  ghost predicate Reachable(cidrs: seq<Cidr>, a: Address) {
    exists i :: 0 <= i < |cidrs| && (forall j :: 0 <= j <= i ==> cidrs[j].Good?)
                && a.version == cidrs[i].net.version && First(cidrs[i].net) <= a.value <= Last(cidrs[i].net)
  }

  lemma ReachableIff(cidrs: seq<Cidr>, a: Address)
    ensures InSome(cidrs, a) <==> Reachable(cidrs, a)
  {
    InSomeIff(cidrs, a);
    forall i | 0 <= i < |cidrs| && cidrs[i].Good?
      ensures Contains(cidrs[i].net, a) <==>
              a.version == cidrs[i].net.version && First(cidrs[i].net) <= a.value <= Last(cidrs[i].net)
    {
      ContainsIffBetween(cidrs[i].net, a);
    }
    hide Contains, First, Last;
  }

  lemma MailboxGrantedIff(p: Policy, mailbox: string)
    ensures MailboxGranted(p, mailbox) <==>
            p.patterns == [] || exists k :: 0 <= k < |p.patterns| && InLanguage(mailbox, p.patterns[k])
  {
    forall k | 0 <= k < |p.patterns| ensures Matches(mailbox, p.patterns[k]) <==> InLanguage(mailbox, p.patterns[k]) {
      MatchesIffInLanguage(mailbox, p.patterns[k]);
    }
    hide Matches, InLanguage;
  }

  // ----- the mailbox check, which looks the scope up as listed -----

  lemma MailboxAccessSound(parent: Policy, child: Policy, known: set<string>, mailbox: string, domain: int, scope: string)
    requires Within(parent, child) && (forall s :: s in child.scopes ==> s in known)
    requires ReadClosed(parent.scopes, known) || !Delegates(parent)
    requires MailboxAccess(child, mailbox, domain, scope)
    ensures MailboxAccess(parent, mailbox, domain, scope)
  {
    DomainsExact(parent, child);
    PatternsSound(parent, child, mailbox);
    assert DomainGranted(parent, domain);
    assert scope in Effective(parent.scopes);
  }

  lemma {:induction false} MatchesOwnPattern(p: string)
    ensures Matches(p, p)
  {
    if p != "" {
      MatchesOwnPattern(p[1..]);
      if p[0] == '*' {
        StarAbsorbs(p[..1], p[1..], p);
        assert p[..1] + p[1..] == p;
      }
    }
  }

  /** The key of `parent` with the read scope of `w` for all its scopes. */
  function Reader(parent: Policy, w: string): (child: Policy)
    requires EndsWith(w, ".write")
  {
    parent.(scopes := [ReadOf(w)],
            rate := if parent.rate.Some? && parent.rate.value > 0 then parent.rate else Some(0))
  }

  lemma ReaderAccepted(parent: Policy, w: string)
    requires Delegates(parent) && w in parent.scopes && EndsWith(w, ".write")
    ensures Within(parent, Reader(parent, w))
    ensures exists m, d :: DomainGranted(parent, d) && MailboxGranted(parent, m)
  {
    var m := if parent.patterns == [] then "" else parent.patterns[0];
    var d := if parent.domainMode == "all" then 0 else parent.domainIds[0];
    MatchesOwnPattern(m);
    assert DomainGranted(parent, d) && MailboxGranted(parent, m);
  }

  /**
   Where an accepted key may read, its principal may read, for all keys with `known`
   scopes, exactly when the principal lists the read scope of each of its write scopes
   or no key with a mailbox grant can be accepted for it.
   */
  lemma MailboxAccessExact(parent: Policy, known: set<string>)
    ensures (ReadClosed(parent.scopes, known) || !Delegates(parent))
            <==> forall child: Policy, mailbox, domain, scope ::
                   && (forall s :: s in child.scopes ==> s in known)
                   && Within(parent, child)
                   && MailboxAccess(child, mailbox, domain, scope)
                   ==> MailboxAccess(parent, mailbox, domain, scope)
  {
    if ReadClosed(parent.scopes, known) || !Delegates(parent) {
      forall child: Policy, mailbox, domain, scope |
        (forall s :: s in child.scopes ==> s in known) && Within(parent, child) && MailboxAccess(child, mailbox, domain, scope)
        ensures MailboxAccess(parent, mailbox, domain, scope)
      {
        MailboxAccessSound(parent, child, known, mailbox, domain, scope);
      }
    } else {
      var w :| w in parent.scopes && EndsWith(w, ".write") && ReadOf(w) in known && ReadOf(w) !in parent.scopes;
      ReaderAccepted(parent, w);
      var m, d :| DomainGranted(parent, d) && MailboxGranted(parent, m);
      var child := Reader(parent, w);
      assert MailboxAccess(child, m, d, ReadOf(w)) && !MailboxAccess(parent, m, d, ReadOf(w));
    }
  }
}
