/** The limiter object of the runtime; each method runs under its connection lock. */
module SmtpConnections {
  import opened OrderedDict
  import opened SmtpLimiter

  class ConnectionTable {
    var active: map<Session, Ip>
    var windows: Dict<Ip, seq<real>>
    var expiry: seq<Ip>
    ghost var past: History
    ghost var clock: real
    ghost var cutoff: real

    ghost function View(): (s: Limiter)
      reads this
    {
      Limiter(active, Tables(windows, expiry), past, clock, cutoff)
    }

    /** Expiry in accepted-time order. */
    method EvictStaleWindows(limit: real)
      modifies this`windows, this`expiry
      ensures Tables(windows, expiry) == EvictStale(old(Tables(windows, expiry)), limit)
    {
      while expiry != []
        invariant EvictStale(Tables(windows, expiry), limit) == EvictStale(old(Tables(windows, expiry)), limit)
        decreases |expiry|
      {
        var ip := expiry[0];
        if ip !in windows.items {
          expiry := expiry[1..];
          continue;
        }
        var window := windows.items[ip];
        if window != [] && window[|window| - 1] > limit { break; }
        expiry := expiry[1..];
        windows := Pop(windows, ip);
      }
    }

    /** Drops least recently used windows until one more fits. */
    method EvictOldest(capacity: nat)
      requires capacity > 0
      modifies this`windows, this`expiry
      ensures Tables(windows, expiry) == MakeRoom(old(Tables(windows, expiry)), capacity)
    {
      while |windows.order| >= capacity
        invariant MakeRoom(Tables(windows, expiry), capacity) == MakeRoom(old(Tables(windows, expiry)), capacity)
        decreases |windows.order|
      {
        var evicted := windows.order[0];
        windows := PopFirst(windows);
        expiry := Without(expiry, evicted);
      }
    }

    method TrimWindow(ip: Ip, limit: real)
      requires ip in windows.items
      modifies this`windows
      ensures windows == old(windows).(items := old(windows).items[ip := Trim(old(windows).items[ip], limit)])
    {
      var window := windows.items[ip];
      while window != [] && window[0] <= limit
        invariant Trim(window, limit) == Trim(old(windows).items[ip], limit)
        decreases |window|
      {
        window := window[1..];
      }
      windows := windows.(items := windows.items[ip := window]);
    }

    /** Everything the attempt does before the verdict. */
    method TouchWindow(c: Call)
      modifies this`windows, this`expiry
      ensures Tables(windows, expiry) == Touch(old(Tables(windows, expiry)), c)
    {
      EvictStaleWindows(Cutoff(c));
      if c.ip !in windows.items {
        EvictOldest(Capacity(c.maxActive));
        windows := PutLast(windows, c.ip, []);
      } else {
        windows := MoveToEnd(windows, c.ip);
      }
      TrimWindow(c.ip, Cutoff(c));
    }

    /** Admits a session or says why not. */
    method RegisterConnection(c: Call) returns (v: Verdict)
      modifies this
      ensures (View(), v) == Register(old(View()), c)
      ensures active == if v.Accepted? && c.session !in old(active) then old(active)[c.session := c.ip] else old(active)
      ensures v.TooManyActive? <==> c.session !in old(active) && 0 < c.maxActive <= |old(active)|
    {
      hide Touch, PushedOut, Forget, Recorded, Without, Cutoff;
      if c.session in active { return Accepted; }
      if c.maxActive > 0 && |active| >= c.maxActive { return TooManyActive; }
      if c.rate > 0 && c.window > 0 {
        TouchWindow(c);
        past := Forget(past, PushedOut(old(Tables(windows, expiry)), Tables(windows, expiry), Cutoff(c)));
        clock, cutoff := c.now, Cutoff(c);
        if |windows.items[c.ip]| >= c.rate { return TooFast; }
        windows := windows.(items := windows.items[c.ip := windows.items[c.ip] + [c.now]]);
        expiry := Without(expiry, c.ip) + [c.ip];
        past := Recorded(past, c.ip, c.now);
      } else {
        past := Forget(past, windows.items.Keys);
        if windows.order != [] { windows, expiry := Empty(), []; }
      }
      active := active[c.session := c.ip];
      v := Accepted;
    }

    method ReleaseConnection(session: Session) returns (known: bool)
      modifies this`active
      ensures known <==> session in old(active)
      ensures View() == Release(old(View()), session)
      ensures active == old(active) - {session}
    {
      known := session in active;
      active := active - {session};
    }
  }
}
