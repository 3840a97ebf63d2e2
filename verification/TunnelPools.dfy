/** The pool of active tunnels with its round-robin cursor (psiphon/controller.go). */
module TunnelPools {
  import opened Bytes

  const MAX_TUNNEL_POOL_SIZE := 32

  /** A connected tunnel: its identity and the IP address of its server. */
  datatype Tunnel = Tunnel(id: nat, ip: nat)

  /** The pool's state: the active tunnels, the cursor, and the target size. */
  datatype Pool = Pool(tunnels: seq<Tunnel>, next: nat, size: nat)

  ghost predicate Valid(p: Pool) {
    && (if p.tunnels == [] then p.next == 0 else p.next < |p.tunnels|)
    && |p.tunnels| <= MAX_TUNNEL_POOL_SIZE && 1 <= p.size <= MAX_TUNNEL_POOL_SIZE
    && DistinctServers(p.tunnels)
  }

  ghost predicate DistinctServers(tunnels: seq<Tunnel>) {
    forall i, j :: 0 <= i < j < |tunnels| ==> tunnels[i].ip != tunnels[j].ip
  }

  /** The sequence read cyclically from position n. */
  function Rotated(s: seq<Tunnel>, n: nat): seq<Tunnel> {
    if n <= |s| then s[n..] + s[..n] else []
  }

  /** The tunnels in the order in which the cursor will visit them. */
  function Order(p: Pool): seq<Tunnel> {
    Rotated(p.tunnels, p.next)
  }

  /** The sequence without the tunnel t. */
  function Without(s: seq<Tunnel>, t: Tunnel): (r: seq<Tunnel>) {
    if s == [] then [] else (if s[0] == t then [] else [s[0]]) + Without(s[1..], t)
  }

  predicate HasServer(tunnels: seq<Tunnel>, ip: nat) {
    exists i :: 0 <= i < |tunnels| && tunnels[i].ip == ip
  }

  predicate Full(p: Pool) {
    |p.tunnels| >= p.size
  }

  /** registerTunnel: refused when the pool is full or has a tunnel to that server. */
  function Register(p: Pool, t: Tunnel): (Pool, bool) {
    if Full(p) || HasServer(p.tunnels, t.ip) then (p, false)
    else (p.(tunnels := p.tunnels + [t]), true)
  }

  /** terminateTunnel: the tunnel goes, and the cursor stays with the tunnel it was at, or moves on
      to the next one. */
  function Terminate(p: Pool, t: Tunnel): (r: Pool)
    requires p.next <= |p.tunnels|
  {
    var tunnels, next := Without(p.tunnels, t), |Without(p.tunnels[..p.next], t)|;
    p.(tunnels := tunnels, next := if next >= |tunnels| then 0 else next)
  }

  /** getNextActiveTunnel */
  function Pick(p: Pool): (Option<Tunnel>, Pool) {
    if p.next >= |p.tunnels| then (None, p)
    else (Some(p.tunnels[p.next]), p.(next := (p.next + 1) % |p.tunnels|))
  }

  function SetSize(p: Pool, size: int): Pool {
    p.(size := if size < 1 then 1 else if size > MAX_TUNNEL_POOL_SIZE then MAX_TUNNEL_POOL_SIZE else size)
  }

  // ---------------------------------------------------------------- round-robin order

  lemma {:induction false} WithoutAbsent(s: seq<Tunnel>, t: Tunnel)
    requires t !in s
    ensures Without(s, t) == s
  {
    if s != [] {
      WithoutAbsent(s[1..], t);
    }
  }

  /** A tunnel taken out of its only place. */
  lemma {:induction false} WithoutOne(a: seq<Tunnel>, t: Tunnel, b: seq<Tunnel>)
    requires t !in a && t !in b
    ensures Without(a + [t] + b, t) == a + b
    decreases |a|
  {
    if a == [] {
      assert (a + [t] + b)[1..] == b;
      WithoutAbsent(b, t);
    } else {
      WithoutOne(a[1..], t, b);
      assert (a + [t] + b)[1..] == a[1..] + [t] + b;
    }
  }

  function Removed(s: seq<Tunnel>, i: nat): seq<Tunnel>
    requires i < |s|
  {
    s[..i] + s[i + 1..]
  }

  lemma OnlyOnce(s: seq<Tunnel>, i: nat)
    requires i < |s| && DistinctServers(s)
    ensures s[i] !in s[..i] && s[i] !in s[i + 1..]
  {
  }

  lemma OnlyThere(s: seq<Tunnel>, i: nat)
    requires i < |s| && s[i] !in s[..i] && s[i] !in s[i + 1..]
    ensures Without(s, s[i]) == Removed(s, i)
  {
    WithoutOne(s[..i], s[i], s[i + 1..]);
    assert s == s[..i] + [s[i]] + s[i + 1..];
  }

  lemma {:induction false} WithoutJoin(a: seq<Tunnel>, b: seq<Tunnel>, t: Tunnel)
    ensures Without(a + b, t) == Without(a, t) + Without(b, t)
    decreases |a|
  {
    if a == [] {
      assert a + b == b;
    } else {
      WithoutJoin(a[1..], b, t);
      assert (a + b)[1..] == a[1..] + b;
    }
  }

  /** How far the removal moves the tunnels behind position n. */
  lemma WithoutPrefix(s: seq<Tunnel>, i: nat, n: nat)
    requires i < |s| && n <= |s| && s[i] !in s[..i] && s[i] !in s[i + 1..]
    ensures |Without(s[..n], s[i])| == if n > i then n - 1 else n
  {
    if n > i {
      var y := s[i + 1..n];
      assert y == s[i + 1..][..n - i - 1];
      assert s[..n] == s[..i] + [s[i]] + y;
      WithoutOne(s[..i], s[i], y);
    } else {
      assert s[..n] == s[..i][..n];
      WithoutAbsent(s[..n], s[i]);
    }
  }

  lemma RotatedSplit(u: seq<Tunnel>, v: seq<Tunnel>)
    ensures Rotated(u + v, |u|) == v + u
    ensures v == [] ==> Rotated(u + v, 0) == v + u
  {
  }

  lemma {:induction false} WithoutKeeps(s: seq<Tunnel>, t: Tunnel)
    requires DistinctServers(s)
    ensures DistinctServers(Without(s, t)) && |Without(s, t)| <= |s|
    ensures forall x :: x in Without(s, t) <==> x in s && x != t
  {
    if s != [] {
      WithoutKeeps(s[1..], t);
      var r := Without(s[1..], t);
      assert s == [s[0]] + s[1..];
      forall j | 0 <= j < |r|
        ensures r[j].ip != s[0].ip
      {
        assert r[j] in s[1..];
      }
    }
  }

  /** Removing a tunnel leaves the visiting order of the others from the cursor unchanged. */
  lemma TerminateKeepsOrder(p: Pool, t: Tunnel)
    requires Valid(p)
    ensures Valid(Terminate(p, t)) && t !in Terminate(p, t).tunnels
    ensures Order(Terminate(p, t)) == Without(Order(p), t)
  {
    var s, n := p.tunnels, p.next;
    WithoutKeeps(s, t);
    WithoutRotated(s, n, t);
  }

  lemma WithoutRotated(s: seq<Tunnel>, n: nat, t: Tunnel)
    requires n <= |s|
    ensures var (r, n') := (Without(s, t), |Without(s[..n], t)|);
      Rotated(r, if n' >= |r| then 0 else n') == Without(Rotated(s, n), t)
  {
    assert s == s[..n] + s[n..];
    WithoutJoin(s[..n], s[n..], t);
    WithoutJoin(s[n..], s[..n], t);
    RotatedSplit(Without(s[..n], t), Without(s[n..], t));
  }

  /** A registered tunnel joins the visiting order at the end of the slice, and leaves the order of
      the others unchanged. */
  lemma RegisterKeepsOrder(p: Pool, t: Tunnel)
    requires Valid(p)
    ensures var (p', ok) := Register(p, t);
      && Valid(p')
      && (ok <==> |p.tunnels| < p.size && !HasServer(p.tunnels, t.ip))
      && (ok ==> t in Order(p') && |Order(p')| == |Order(p)| + 1 && Without(Order(p'), t) == Order(p))
      && (!ok ==> p' == p)
  {
    var (p', ok) := Register(p, t);
    if ok {
      assert t !in p.tunnels;
      WithoutOne(p.tunnels[p.next..], t, p.tunnels[..p.next]);
      assert Order(p') == p.tunnels[p.next..] + [t] + p.tunnels[..p.next];
    }
  }

  lemma NextModulo(n: nat, m: nat)
    requires n < m
    ensures (n + 1) % m == if n + 1 == m then 0 else n + 1
  {
  }

  /** The rotation one position on. */
  lemma RotatedNext(s: seq<Tunnel>, n: nat)
    requires n < |s|
    ensures Rotated(s, n)[0] == s[n]
    ensures Rotated(s, if n + 1 == |s| then 0 else n + 1) == Rotated(s, n)[1..] + [s[n]]
  {
    var u, t, v := s[..n], [s[n]], s[n + 1..];
    assert s == u + (t + v) && s == (u + t) + v;
    RotatedSplit(u, t + v);
    RotatedSplit(u + t, v);
    assert (t + v + u)[1..] == v + u;
    assert v + (u + t) == (v + u) + t;
  }

  /** A pick takes the first tunnel of the order and moves it to the end. */
  lemma PickRotates(p: Pool)
    requires Valid(p) && p.tunnels != []
    ensures var (t, p') := Pick(p);
      && Valid(p') && p'.tunnels == p.tunnels && p'.size == p.size
      && t == Some(Order(p)[0]) && Order(p') == Order(p)[1..] + [Order(p)[0]]
  {
    NextModulo(p.next, |p.tunnels|);
    RotatedNext(p.tunnels, p.next);
  }

  /** The tunnels returned by n picks in a row, and the pool after them. */
  function Picks(p: Pool, n: nat): (seq<Tunnel>, Pool)
    requires p.next < |p.tunnels|
    decreases n
  {
    if n == 0 then ([], p)
    else
      var (s, p') := Picks(Pick(p).1, n - 1);
      ([p.tunnels[p.next]] + s, p')
  }

  lemma Rejoin(o: seq<Tunnel>, n: nat)
    requires 0 < n <= |o|
    ensures var r := o[1..] + [o[0]]; [o[0]] + r[..n - 1] == o[..n] && r[n - 1..] + r[..n - 1] == o[n..] + o[..n]
  {
    var r := o[1..] + [o[0]];
    assert r[..n - 1] == o[1..n] && r[n - 1..] == o[n..] + [o[0]];
  }

  lemma {:induction false} PicksRotate(p: Pool, n: nat)
    requires Valid(p) && p.tunnels != [] && n <= |p.tunnels|
    ensures Picks(p, n).0 == Order(p)[..n]
    ensures var p' := Picks(p, n).1; Valid(p') && p'.tunnels == p.tunnels && Order(p') == Order(p)[n..] + Order(p)[..n]
    decreases n
  {
    if n > 0 {
      PickRotates(p);
      PicksRotate(Pick(p).1, n - 1);
      Rejoin(Order(p), n);
    }
  }

  /** As many picks as there are tunnels, on an unchanged pool, visit each tunnel once, and bring the
      order back to where it was. */
  lemma RoundRobinVisitsAll(p: Pool)
    requires Valid(p) && p.tunnels != []
    ensures var (s, p') := Picks(p, |p.tunnels|);
      && multiset(s) == multiset(p.tunnels) && s == Order(p) && Order(p') == Order(p)
  {
    PicksRotate(p, |p.tunnels|);
    RotatedWhole(p.tunnels, p.next);
  }

  lemma RotatedWhole(s: seq<Tunnel>, n: nat)
    requires n <= |s|
    ensures multiset(Rotated(s, n)) == multiset(s)
    ensures var o := Rotated(s, n); |o| == |s| && o[..|s|] == o && o[|s|..] + o[..|s|] == o
  {
    assert s == s[..n] + s[n..];
  }

  /** Taking a tunnel out at its place, and moving the cursor. */
  lemma TerminateAt(p: Pool, index: nat)
    requires Valid(p) && index < |p.tunnels|
    ensures var next := if p.next > index then p.next - 1 else p.next;
      Terminate(p, p.tunnels[index]) ==
        Pool(Removed(p.tunnels, index), if next >= |p.tunnels| - 1 then 0 else next, p.size)
  {
    OnlyOnce(p.tunnels, index);
    OnlyThere(p.tunnels, index);
    WithoutPrefix(p.tunnels, index, p.next);
  }

  lemma TerminateAbsent(p: Pool, t: Tunnel)
    requires Valid(p) && t !in p.tunnels
    ensures Terminate(p, t) == p
  {
    WithoutAbsent(p.tunnels, t);
    WithoutAbsent(p.tunnels[..p.next], t);
  }

  // ---------------------------------------------------------------- the pool in place

  class TunnelPool {
    var tunnels: seq<Tunnel>
    var nextTunnel: nat
    var tunnelPoolSize: nat

    ghost function State(): Pool
      reads this
    {
      Pool(tunnels, nextTunnel, tunnelPoolSize)
    }

    constructor ()
      ensures State() == Pool([], 0, 1) && Valid(State())
    {
      tunnels, nextTunnel, tunnelPoolSize := [], 0, 1;
    }

    method RegisterTunnel(tunnel: Tunnel) returns (ok: bool)
      requires Valid(State())
      modifies this
      ensures Valid(State()) && (State(), ok) == Register(old(State()), tunnel)
    {
      RegisterKeepsOrder(State(), tunnel);
      if |tunnels| >= tunnelPoolSize {
        return false;
      }
      for index := 0 to |tunnels|
        invariant !HasServer(tunnels[..index], tunnel.ip)
      {
        if tunnels[index].ip == tunnel.ip {
          return false;
        }
      }
      assert tunnels[..|tunnels|] == tunnels;
      tunnels := tunnels + [tunnel];
      return true;
    }

    method TerminateTunnel(tunnel: Tunnel)
      requires Valid(State())
      modifies this
      ensures Valid(State()) && State() == Terminate(old(State()), tunnel)
      ensures Order(State()) == Without(old(Order(State())), tunnel)
    {
      ghost var before := State();
      for index := 0 to |tunnels|
        invariant State() == before && tunnel !in tunnels[..index]
      {
        if tunnels[index] == tunnel {
          TerminateAt(before, index);
          tunnels := tunnels[..index] + tunnels[index + 1..];
          if nextTunnel > index {
            nextTunnel := nextTunnel - 1;
          }
          if nextTunnel >= |tunnels| {
            nextTunnel := 0;
          }
          assert State() == Terminate(before, tunnel);
          TerminateKeepsOrder(before, tunnel);
          return;
        }
      }
      assert tunnels[..|tunnels|] == tunnels;
      TerminateAbsent(before, tunnel);
      TerminateKeepsOrder(before, tunnel);
    }

    method GetNextActiveTunnel() returns (tunnel: Option<Tunnel>)
      requires Valid(State())
      modifies this`nextTunnel
      ensures Valid(State()) && (tunnel, State()) == Pick(old(State()))
      ensures tunnel.None? <==> tunnels == []
    {
      if |tunnels| == 0 {
        return None;
      }
      PickRotates(State());
      tunnel := Some(tunnels[nextTunnel]);
      nextTunnel := (nextTunnel + 1) % |tunnels|;
    }

    method SetTunnelPoolSize(size: int)
      requires Valid(State())
      modifies this`tunnelPoolSize
      ensures Valid(State()) && State() == SetSize(old(State()), size)
    {
      var clamped := size;
      if clamped < 1 {
        clamped := 1;
      }
      if clamped > MAX_TUNNEL_POOL_SIZE {
        clamped := MAX_TUNNEL_POOL_SIZE;
      }
      tunnelPoolSize := clamped;
    }

    method TerminateAllTunnels()
      requires Valid(State())
      modifies this
      ensures Valid(State()) && State() == Pool([], 0, old(tunnelPoolSize))
    {
      tunnels := [];
      nextTunnel := 0;
    }
  }
}
