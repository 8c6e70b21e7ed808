/** The resolved topology a build runs over: the servers in order, each with the IPs of the
    nodes it hosts. The per-node executor numbers the nodes absolutely, server by server and
    node by node, and every per-node result lands in the slot of that absolute number. */
module Topology {

  datatype Server = Server(id: int, ips: seq<string>, subnetId: int)

  /** Number of nodes hosted by the servers before server `s`. */
  function Offset(servers: seq<Server>, s: nat): nat
    requires s <= |servers|
  {
    if s == 0 then 0 else Offset(servers, s - 1) + |servers[s - 1].ips|
  }

  /** The IPs of all nodes, in absolute order. */
  function NodeIps(servers: seq<Server>): (ips: seq<string>)
    ensures |ips| == Offset(servers, |servers|)
  {
    if |servers| == 0 then []
    else
      OffsetPrefix(servers, |servers| - 1, |servers| - 1);
      NodeIps(servers[..|servers| - 1]) + servers[|servers| - 1].ips
  }

  function NodeCount(servers: seq<Server>): nat
  {
    |NodeIps(servers)|
  }

  /** The absolute number of node `l` of server `s`. */
  function AbsoluteIndex(servers: seq<Server>, s: nat, l: nat): nat
    requires s < |servers| && l < |servers[s].ips|
  {
    Offset(servers, s) + l
  }

  lemma OffsetPrefix(servers: seq<Server>, s: nat, m: nat)
    requires s <= m <= |servers|
    ensures Offset(servers[..m], s) == Offset(servers, s)
    decreases s
  {
    if s > 0 {
      OffsetPrefix(servers, s - 1, m);
      assert servers[..m][s - 1] == servers[s - 1];
    }
  }

  lemma {:induction false} OffsetMonotone(servers: seq<Server>, s: nat, t: nat)
    requires s <= t <= |servers|
    ensures Offset(servers, s) <= Offset(servers, t)
    decreases t - s
  {
    if s < t {
      OffsetMonotone(servers, s, t - 1);
    }
  }

  /** Node `l` of server `s` has, at its absolute number, its own server's IP: the lookup
      `servers[serverNum].Ips[localNodeNum]` agrees with the absolute numbering. */
  lemma {:induction false} AbsoluteIpLookup(servers: seq<Server>, s: nat, l: nat)
    requires s < |servers| && l < |servers[s].ips|
    ensures AbsoluteIndex(servers, s, l) < NodeCount(servers)
    ensures NodeIps(servers)[AbsoluteIndex(servers, s, l)] == servers[s].ips[l]
    decreases |servers|
  {
    var n := |servers| - 1;
    var init := servers[..n];
    assert NodeIps(servers) == NodeIps(init) + servers[n].ips;
    OffsetPrefix(servers, n, n);
    if s == n {
      OffsetPrefix(servers, s, n);
    } else {
      assert init[s] == servers[s];
      AbsoluteIpLookup(init, s, l);
      OffsetPrefix(servers, s, n);
    }
  }

  /** Distinct (server, node) pairs get distinct absolute numbers, so per-node slot writes
      never collide. */
  lemma AbsoluteIndexInjective(servers: seq<Server>, s1: nat, l1: nat, s2: nat, l2: nat)
    requires s1 < |servers| && l1 < |servers[s1].ips|
    requires s2 < |servers| && l2 < |servers[s2].ips|
    requires AbsoluteIndex(servers, s1, l1) == AbsoluteIndex(servers, s2, l2)
    ensures s1 == s2 && l1 == l2
  {
    if s1 < s2 {
      OffsetMonotone(servers, s1 + 1, s2);
    } else if s2 < s1 {
      OffsetMonotone(servers, s2 + 1, s1);
    }
  }
}
