/** The heartbeat table of server/discovery_registry.go, against the log of every heartbeat it received. */
module Registry {
  import opened Decimal

  /** A heartbeat, its address field as net.ParseIP reads it. */
  datatype Heartbeat = Heartbeat(uniqueID: string, instance: string, address: Option<string>, alpacaPort: int)

  datatype Registration = Registration(heartbeat: Heartbeat, addr: string, local: bool, seen: real)

  const DEFAULT_REGISTRATION_TTL := 30.0

  /** net.JoinHostPort. */
  function JoinHostPort(host: string, port: int): string {
    if ':' in host then "[" + host + "]:" + IntText(port) else host + ":" + IntText(port)
  }

  function AddrOf(hb: Heartbeat, source: string): string {
    if hb.address.Some? then hb.address.value else source
  }

  /** The device a heartbeat speaks for: its unique id, else its instance, else where it is. */
  function KeyOf(hb: Heartbeat, source: string): string {
    if hb.uniqueID != "" then hb.uniqueID
    else if hb.instance != "" then hb.instance
    else JoinHostPort(AddrOf(hb, source), hb.alpacaPort)
  }

  /** A host as net.IP prints it. */
  predicate Address(host: string) {
    '[' !in host && ']' !in host
  }

  lemma {:induction false} DigitsOnly(n: int)
    ensures ':' !in IntText(n) && ']' !in IntText(n)
  {
  }

  lemma ColonBefore(a: string, p: string, b: string, q: string)
    requires a + ":" + p == b + ":" + q && |a| < |b|
    ensures ':' in p
  {
    assert (b + ":" + q)[|b|] == ':';
    assert (a + ":" + p)[|b|] == p[|b| - |a| - 1];
  }

  /** Where the port begins is where the last colon is. */
  lemma SplitAtColon(a: string, p: string, b: string, q: string)
    requires a + ":" + p == b + ":" + q && ':' !in p && ':' !in q
    ensures a == b && p == q
  {
    var s, t := a + ":" + p, b + ":" + q;
    assert |a| == |b| by {
      if |a| < |b| {
        ColonBefore(a, p, b, q);
      } else if |b| < |a| {
        ColonBefore(b, q, a, p);
      }
    }
    assert a == s[..|a|] && b == t[..|b|] && p == s[|a| + 1..] && q == t[|b| + 1..];
  }

  /** A host, in brackets if it has colons. */
  function Boxed(host: string): string {
    if ':' in host then ['['] + host + [']'] else host
  }

  lemma BoxedOnce(host: string, host': string)
    requires Address(host) && Address(host') && Boxed(host) == Boxed(host')
    ensures host == host'
  {
    var b := Boxed(host);
    assert ':' in host ==> b[0] == '[' && b[1..|b| - 1] == host;
    assert ':' in host' ==> b[0] == '[' && b[1..|b| - 1] == host';
  }

  /** The text of an address and a port, in brackets if the address has colons, is that of no other. */
  lemma JoinedOnce(host: string, port: int, host': string, port': int)
    requires Address(host) && Address(host')
    ensures JoinHostPort(host, port) == JoinHostPort(host', port') <==> host == host' && port == port'
    ensures JoinHostPort(host, port) == Boxed(host) + [':'] + IntText(port)
  {
    JoinedText(host, port);
    JoinedText(host', port');
    DigitsOnly(port);
    DigitsOnly(port');
    hide Boxed, JoinHostPort, IntText;
    if JoinHostPort(host, port) == JoinHostPort(host', port') {
      SplitAtColon(Boxed(host), IntText(port), Boxed(host'), IntText(port'));
      IntRoundTrip(port);
      IntRoundTrip(port');
      BoxedOnce(host, host');
    }
  }

  lemma JoinedText(host: string, port: int)
    ensures JoinHostPort(host, port) == Boxed(host) + ":" + IntText(port)
  {
    if ':' in host {
      assert ['['] + host + [']'] + ":" == "[" + host + "]:";
    }
  }

  /**
   * Which heartbeats speak for the same device: those with the same unique id, wherever they come from; without one,
   * those with the same instance; without either, those from the same address and port.
   */
  lemma SameDevice(hb: Heartbeat, source: string, hb': Heartbeat, source': string)
    requires Address(AddrOf(hb, source)) && Address(AddrOf(hb', source'))
    ensures hb.uniqueID != "" && hb'.uniqueID != "" ==>
              (KeyOf(hb, source) == KeyOf(hb', source') <==> hb.uniqueID == hb'.uniqueID)
    ensures hb.uniqueID == "" && hb'.uniqueID == "" && hb.instance != "" && hb'.instance != "" ==>
              (KeyOf(hb, source) == KeyOf(hb', source') <==> hb.instance == hb'.instance)
    ensures hb.uniqueID == "" && hb'.uniqueID == "" && hb.instance == "" && hb'.instance == "" ==>
              (KeyOf(hb, source) == KeyOf(hb', source') <==>
               AddrOf(hb, source) == AddrOf(hb', source') && hb.alpacaPort == hb'.alpacaPort)
    ensures hb.address.None? ==> AddrOf(hb, source) == source
    ensures hb.address.Some? ==> AddrOf(hb, source) == hb.address.value
  {
    JoinedOnce(AddrOf(hb, source), hb.alpacaPort, AddrOf(hb', source'), hb'.alpacaPort);
  }

  /** Every heartbeat received, in order, under its key. */
  type Log = seq<(string, Registration)>

  /** The last heartbeat logged under a key. */
  function Last(log: Log, key: string): Option<Registration> {
    if log == [] then None
    else if log[|log| - 1].0 == key then Some(log[|log| - 1].1)
    else Last(log[..|log| - 1], key)
  }

  /** The device was heard from, most recently no longer ago than the TTL. */
  predicate IsLive(log: Log, key: string, now: real, ttl: real) {
    var e := Last(log, key);
    e.Some? && now - e.value.seen <= ttl
  }

  /** A probe at time now is answered on this device's behalf with port p. */
  predicate AnsweredDirectly(log: Log, ttl: real, key: string, p: int, now: real) {
    IsLive(log, key, now, ttl) && Last(log, key).value.local && Last(log, key).value.heartbeat.alpacaPort == p
  }

  /** A probe at time now is relayed to this device. */
  predicate Relayed(log: Log, ttl: real, key: string, now: real) {
    IsLive(log, key, now, ttl) && !Last(log, key).value.local
  }

  /** A device last heard from on this host, whose port a live device on this host has. */
  ghost predicate SharesLivePort(log: Log, ttl: real, key: string, now: real) {
    var e := Last(log, key);
    e.Some? && e.value.local && exists k: string :: AnsweredDirectly(log, ttl, k, e.value.heartbeat.alpacaPort, now)
  }

  /** The device's own port, last heard from on this host, is among those answered. */
  predicate Served(log: Log, key: string, ports: seq<int>) {
    var e := Last(log, key);
    e.Some? && e.value.local && e.value.heartbeat.alpacaPort in ports
  }

  /** A device silent past the TTL still counts as answered for when another one has its port. */
  lemma ServedThoughSilent(ttl: real, port: int)
    requires 0.0 < ttl
    ensures var gone := Registration(Heartbeat("a", "", None, port), "h", true, 0.0);
            var here := Registration(Heartbeat("b", "", None, port), "h", true, 2.0 * ttl);
            var log := [("a", gone), ("b", here)];
            !IsLive(log, "a", 2.0 * ttl, ttl) && SharesLivePort(log, ttl, "a", 2.0 * ttl)
  {
    var gone := Registration(Heartbeat("a", "", None, port), "h", true, 0.0);
    var here := Registration(Heartbeat("b", "", None, port), "h", true, 2.0 * ttl);
    var log := [("a", gone), ("b", here)];
    assert log[..1] == [("a", gone)] && "a"[0] != "b"[0];
    assert Last([("a", gone)], "a") == Some(gone);
    assert AnsweredDirectly(log, ttl, "b", port, 2.0 * ttl);
  }

  /** A device is live from its last heartbeat until the TTL is over, the last instant included. */
  lemma LiveSpan(log: Log, key: string, e: Registration, now: real, ttl: real)
    ensures Last(log, key) == Some(e) ==> (IsLive(log, key, now, ttl) <==> now <= e.seen + ttl)
    ensures (forall i | 0 <= i < |log| :: log[i].0 != key) ==> !IsLive(log, key, now, ttl)
  {
    if Last(log, key).Some? {
      LastLogged(log, key, Last(log, key).value);
    }
  }

  ghost predicate LastAt(log: Log, key: string, e: Registration, i: nat) {
    i < |log| && log[i] == (key, e) && forall j | i < j < |log| :: log[j].0 != key
  }

  /** Last finds the heartbeat after which the key was not heard from again. */
  lemma {:induction false} LastLogged(log: Log, key: string, e: Registration)
    ensures Last(log, key) == Some(e) <==> exists i: nat :: LastAt(log, key, e, i)
  {
    if log != [] {
      var n := |log| - 1;
      var before := log[..n];
      if log[n].0 == key {
        assert Last(log, key) == Some(e) ==> LastAt(log, key, e, n);
      } else {
        LastLogged(before, key, e);
        assert forall i: nat :: LastAt(before, key, e, i) <==> LastAt(log, key, e, i);
      }
    }
  }

  /** out lists the registrations of the table, each once, in the order of its keys in `keys`. */
  ghost predicate Lists(out: seq<Registration>, keys: seq<string>, table: map<string, Registration>) {
    && |out| == |keys|
    && (forall i, j | 0 <= i < j < |keys| :: keys[i] != keys[j])
    && (forall i | 0 <= i < |keys| :: keys[i] in table && out[i] == table[keys[i]])
    && (forall k | k in table :: k in keys)
  }

  class Registrations {
    const ttl: real
    const isLocal: string -> bool
    var entries: map<string, Registration>
    ghost var log: Log
    /** The time of the latest call. */
    ghost var clock: real

    constructor (ttl: real, isLocal: string -> bool, ghost start: real)
      ensures Valid() && log == [] && clock == start && entries == map[]
      ensures this.isLocal == isLocal && this.ttl == if ttl <= 0.0 then 30.0 else ttl
    {
      this.ttl := if ttl <= 0.0 then DEFAULT_REGISTRATION_TTL else ttl;
      this.isLocal := isLocal;
      entries, log, clock := map[], [], start;
    }

    /** An entry is the last heartbeat of its key; a key that has none was pruned after its last heartbeat ran out. */
    ghost predicate Valid()
      reads this
    {
      && (forall k | k in entries :: Last(log, k) == Some(entries[k]))
      && (forall k: string :: IsLive(log, k, clock, ttl) ==> k in entries)
    }

    method Record(hb: Heartbeat, source: string, now: real) returns (cp: Registration)
      requires Valid() && clock <= now
      modifies this
      ensures Valid() && clock == now
      ensures cp == Registration(hb, AddrOf(hb, source), isLocal(AddrOf(hb, source)), now)
      ensures log == old(log) + [(KeyOf(hb, source), cp)]
      ensures entries == old(entries)[KeyOf(hb, source) := cp]
    {
      var addr := source;
      if hb.address.Some? {
        addr := hb.address.value;
      }
      var key := hb.uniqueID;
      if key == "" {
        key := hb.instance;
      }
      if key == "" {
        key := JoinHostPort(addr, hb.alpacaPort);
      }
      var entry := Registration(hb, addr, isLocal(addr), now);
      ghost var before := log;
      entries := entries[key := entry];
      log, clock := log + [(key, entry)], now;
      assert log[..|log| - 1] == before;
      return entry;
    }

    /** Live: prunes and lists, in whatever order the map is walked. */
    method Live(now: real) returns (out: seq<Registration>, ghost keys: seq<string>)
      requires Valid() && clock <= now
      modifies this`entries, this`clock
      ensures Valid() && clock == now
      ensures forall k: string :: k in entries <==> IsLive(log, k, now, ttl)
      ensures Lists(out, keys, entries)
    {
      out, keys := [], [];
      var todo := entries.Keys;
      clock := now;
      while todo != {}
        invariant Valid() && clock == now
        invariant forall k | k in entries && k !in todo :: k in keys
        invariant forall i | 0 <= i < |keys| :: keys[i] in entries && keys[i] !in todo && IsLive(log, keys[i], now, ttl)
        invariant |out| == |keys| && forall i | 0 <= i < |keys| :: out[i] == entries[keys[i]]
        invariant forall i, j | 0 <= i < j < |keys| :: keys[i] != keys[j]
        invariant todo <= entries.Keys
        decreases todo
      {
        var k :| k in todo;
        todo := todo - {k};
        var e := entries[k];
        if now - e.seen > ttl {
          entries := entries - {k};
          continue;
        }
        out, keys := out + [e], keys + [k];
      }
    }

    /** LocalPorts: the distinct ports of the live local devices. */
    method LocalPorts(now: real) returns (ports: seq<int>)
      requires Valid() && clock <= now
      modifies this`entries, this`clock
      ensures Valid() && clock == now
      ensures forall i, j | 0 <= i < j < |ports| :: ports[i] != ports[j]
      ensures forall p :: p in ports <==> exists k: string :: AnsweredDirectly(log, ttl, k, p, now)
    {
      var seen: set<int> := {};
      ports := [];
      var live;
      ghost var keys;
      live, keys := Live(now);
      for i := 0 to |live|
        invariant forall p :: p in ports <==> p in seen
        invariant forall i, j | 0 <= i < j < |ports| :: ports[i] != ports[j]
        invariant forall p ::
                    p in ports <==> exists j :: 0 <= j < i && live[j].local && live[j].heartbeat.alpacaPort == p
      {
        var e := live[i];
        if e.local && e.heartbeat.alpacaPort !in seen {
          seen := seen + {e.heartbeat.alpacaPort};
          ports := ports + [e.heartbeat.alpacaPort];
        }
      }
      forall p
        ensures p in ports <==> exists k: string :: AnsweredDirectly(log, ttl, k, p, now)
      {
        if p in ports {
          var j :| 0 <= j < |live| && live[j].local && live[j].heartbeat.alpacaPort == p;
          assert AnsweredDirectly(log, ttl, keys[j], p, now);
        }
        if exists k: string :: AnsweredDirectly(log, ttl, k, p, now) {
          var k: string :| AnsweredDirectly(log, ttl, k, p, now);
          var j :| 0 <= j < |keys| && keys[j] == k;
          assert live[j].local && live[j].heartbeat.alpacaPort == p;
        }
      }
    }

    /** The devices Relay sends the probe on to. */
    method RelayTargets(now: real) returns (remote: seq<Registration>, ghost keys: seq<string>)
      requires Valid() && clock <= now
      modifies this`entries, this`clock
      ensures Valid() && clock == now
      ensures |keys| == |remote| && forall i, j | 0 <= i < j < |keys| :: keys[i] != keys[j]
      ensures forall k: string :: k in keys <==> Relayed(log, ttl, k, now)
      ensures forall i | 0 <= i < |keys| :: Last(log, keys[i]) == Some(remote[i])
    {
      remote, keys := [], [];
      var live;
      ghost var all;
      live, all := Live(now);
      for i := 0 to |live|
        invariant |keys| == |remote|
        invariant forall i, j | 0 <= i < j < |keys| :: keys[i] != keys[j]
        invariant forall k :: k in keys <==> exists j :: 0 <= j < i && all[j] == k && !live[j].local
        invariant forall j | 0 <= j < |keys| :: Last(log, keys[j]) == Some(remote[j])
      {
        var e := live[i];
        if e.local {
          continue;
        }
        assert forall j | 0 <= j < i :: all[j] != all[i];
        assert all[i] !in keys;
        remote, keys := remote + [e], keys + [all[i]];
      }
    }

    /**
     * One probe: the ports answered directly, then the devices it is relayed to, at a perhaps later reading of the
     * clock. No device is both answered for and relayed to; one is either if and only if it is live or shares the
     * port of one that is.
     */
    method ServeProbe(now: real, later: real)
      returns (ports: seq<int>, remote: seq<Registration>, ghost keys: seq<string>)
      requires Valid() && clock <= now <= later
      modifies this`entries, this`clock
      ensures Valid() && clock == later
      ensures |keys| == |remote| && forall i | 0 <= i < |keys| :: Last(log, keys[i]) == Some(remote[i])
      ensures forall k: string | k in keys :: IsLive(log, k, later, ttl)
      ensures forall k: string :: !(Served(log, k, ports) && k in keys)
      ensures forall k: string | IsLive(log, k, later, ttl) :: Served(log, k, ports) || k in keys
      ensures now == later ==> forall k: string ::
                Served(log, k, ports) || k in keys <==> IsLive(log, k, now, ttl) || SharesLivePort(log, ttl, k, now)
    {
      ports := LocalPorts(now);
      remote, keys := RelayTargets(later);
      forall k: string
        ensures Served(log, k, ports) <==> SharesLivePort(log, ttl, k, now)
        ensures IsLive(log, k, later, ttl) ==> SharesLivePort(log, ttl, k, now) || k in keys
        ensures IsLive(log, k, now, ttl) && Last(log, k).value.local ==> SharesLivePort(log, ttl, k, now)
      {
        if IsLive(log, k, now, ttl) && Last(log, k).value.local {
          assert AnsweredDirectly(log, ttl, k, Last(log, k).value.heartbeat.alpacaPort, now);
        }
        assert IsLive(log, k, later, ttl) ==> IsLive(log, k, now, ttl);
        assert k in keys <==> Relayed(log, ttl, k, later);
      }
    }
  }
}
