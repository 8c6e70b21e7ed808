/** The plumtree `build` recipe: one peer list naming every node, built in a loop that counts
    a step per node, then the same gossip command for every node, each node's task counting
    one more step when it ends, whether or not it failed. The per-node tasks run here in a
    loop over the nodes in order; what the two remote `tmux` calls report for a node arrives
    as input. */
module Plumtree {
  import opened Wrappers
  import opened Text
  import opened State

  /** The fields of a testnet node the recipe reads. */
  datatype Node = Node(localId: int, ip: string)

  /** `util.Service` is not part of this model; a service is kept by its name only. */
  datatype Service = Service(name: string)

  /** The port every node listens on and is advertised with. */
  const Port: nat := 9000

  /** Where each node's gossip process writes its log. */
  const LogPath: string := "/plumtree/data/log.json"

  /** The services the recipe asks for: none. */
  function Services(): (s: seq<Service>)
    ensures |s| == 0
  {
    []
  }

  /** The additional logs the recipe registers: the JSON log, under the key "json". */
  function AdditionalLogs(): (logs: map<string, string>)
    ensures logs.Keys == {"json"}
    ensures logs["json"] == LogPath
  {
    map["json" := LogPath]
  }

  /** `fmt.Sprintf("tcp://whiteblock-node%d@%s:%d", LocalID, IP, port)`. */
  function PeerAddress(n: Node): string
  {
    "tcp://whiteblock-node" + IntToString(n.localId) + "@" + n.ip + ":" + NatToString(Port)
  }

  lemma PortText()
    ensures NatToString(Port) == "9000"
  {
    assert NatToString(9) == "9";
    assert NatToString(90) == "90";
    assert NatToString(900) == "900";
  }

  /** A peer address names its node's local id and IP, and ends with the port. */
  lemma PeerAddressShape(n: Node)
    ensures var a := PeerAddress(n);
            var h := "tcp://whiteblock-node" + IntToString(n.localId) + "@";
            && |a| == |h| + |n.ip| + 5
            && a[..|h|] == h
            && a[|h|..|h| + |n.ip|] == n.ip
            && a[|h| + |n.ip|..] == ":9000"
  {
    PortText();
    var h := "tcp://whiteblock-node" + IntToString(n.localId) + "@";
    var a := PeerAddress(n);
    assert a == h + n.ip + ":9000";
    assert a[..|h|] == h;
    assert a[|h|..|h| + |n.ip|] == n.ip;
  }

  /** The peer addresses of the nodes, in node order. */
  function Addresses(nodes: seq<Node>): (addrs: seq<string>)
    ensures |addrs| == |nodes|
    ensures forall k :: 0 <= k < |nodes| ==> addrs[k] == PeerAddress(nodes[k])
  {
    if |nodes| == 0 then []
    else Addresses(nodes[..|nodes| - 1]) + [PeerAddress(nodes[|nodes| - 1])]
  }

  /** The peer list as a whole: every address preceded by a space, neighbours separated by
      two spaces, nothing after the last one. */
  function PeerList(addrs: seq<string>): string
  {
    if |addrs| == 0 then "" else " " + Join(addrs, "  ")
  }

  /** The list the loop has built before its last node: each address between two spaces. */
  function Spaced(addrs: seq<string>): string
    decreases |addrs|
  {
    if |addrs| == 0 then "" else Spaced(addrs[..|addrs| - 1]) + " " + addrs[|addrs| - 1] + " "
  }

  lemma SpacedStep(addrs: seq<string>, i: nat)
    requires i < |addrs|
    ensures Spaced(addrs[..i + 1]) == Spaced(addrs[..i]) + " " + addrs[i] + " "
  {
    assert addrs[..i + 1][..i] == addrs[..i];
  }

  /** The string steps of closing the list one node later. */
  lemma Regroup(a: string, x: string, y: string, j: string)
    requires a + " " + x == " " + j
    ensures a + " " + x + " " + " " + y == " " + (j + "  " + y)
  {
    assert a + " " + x + " " + " " + y == (a + " " + x) + ("  " + y);
  }

  /** Closing the loop's list with the last address, without a trailing space, gives the peer
      list. */
  lemma {:induction false} SpacedThenLast(addrs: seq<string>)
    requires |addrs| >= 1
    ensures Spaced(addrs[..|addrs| - 1]) + " " + addrs[|addrs| - 1] == PeerList(addrs)
    decreases |addrs|
  {
    var n := |addrs|;
    if n == 1 {
      assert addrs[..0] == [];
    } else {
      var init := addrs[..n - 1];
      SpacedThenLast(init);
      assert init[..n - 2] == addrs[..n - 2] && init[n - 2] == addrs[n - 2];
      SpacedStep(init, n - 2);
      Regroup(Spaced(init[..n - 2]), init[n - 2], addrs[n - 1], Join(init, "  "));
      assert Join(addrs, "  ") == Join(init, "  ") + "  " + addrs[n - 1];
    }
  }

  /** One round of the peer-list loop keeps the loop's list, or completes it at the last
      node. */
  lemma PeersStep(addrs: seq<string>, i: nat, peers: string)
    requires i < |addrs| && peers == Spaced(addrs[..i])
    ensures i != |addrs| - 1 ==> peers + " " + addrs[i] + " " == Spaced(addrs[..i + 1])
    ensures i == |addrs| - 1 ==> peers + " " + addrs[i] == PeerList(addrs)
  {
    if i != |addrs| - 1 {
      SpacedStep(addrs, i);
    } else {
      SpacedThenLast(addrs);
    }
  }

  /** The peer-list loop: each node's address is appended after a space, followed by one more
      space unless it is the last node, and each node counts one step. */
  method BuildPeers(nodes: seq<Node>, bs: BuildState) returns (peers: string)
    modifies bs
    ensures peers == PeerList(Addresses(nodes))
    ensures bs.progress == Advanced(old(bs.progress), bs.buildSteps, |nodes|)
    ensures bs.buildSteps == old(bs.buildSteps) && bs.stage == old(bs.stage) && bs.files == old(bs.files)
  {
    ghost var addrs := Addresses(nodes);
    peers := "";
    var i := 0;
    while i < |nodes|
      invariant 0 <= i <= |nodes|
      invariant i < |nodes| ==> peers == Spaced(addrs[..i])
      invariant i == |nodes| ==> peers == PeerList(addrs)
      invariant bs.progress == Advanced(old(bs.progress), bs.buildSteps, i)
      invariant bs.buildSteps == old(bs.buildSteps) && bs.stage == old(bs.stage)
      invariant bs.files == old(bs.files)
    {
      var peer := PeerAddress(nodes[i]);
      PeersStep(addrs, i, peers);
      if i != |nodes| - 1 {
        peers := peers + " " + peer + " ";
      } else {
        peers := peers + " " + peer;
      }
      bs.IncrementBuildProgress();
      i := i + 1;
    }
  }

  /** The peer list of no nodes is empty. */
  lemma PeerListEmpty()
    ensures PeerList([]) == ""
  {
  }

  /** Appending a node appends two spaces and its address; a single node is one space and
      its address. */
  lemma PeerListSnoc(addrs: seq<string>, a: string)
    ensures |addrs| == 0 ==> PeerList(addrs + [a]) == " " + a
    ensures |addrs| > 0 ==> PeerList(addrs + [a]) == PeerList(addrs) + "  " + a
  {
    var xs := addrs + [a];
    assert xs[..|xs| - 1] == addrs;
  }

  /** A non-empty peer list starts with a space and ends with the port of the last node, so
      it carries no trailing space. */
  lemma PeerListEnds(nodes: seq<Node>)
    requires |nodes| > 0
    ensures var p := PeerList(Addresses(nodes));
            |p| >= 5 && p[0] == ' ' && p[|p| - 5..] == ":9000"
  {
    var addrs := Addresses(nodes);
    PeerAddressShape(nodes[|nodes| - 1]);
    PeerListLast(addrs);
    SuffixOfSuffix(PeerList(addrs), addrs[|addrs| - 1], ":9000");
  }

  /** A non-empty peer list starts with a space and ends with the last address. */
  lemma PeerListLast(addrs: seq<string>)
    requires |addrs| > 0
    ensures var p := PeerList(addrs);
            var last := addrs[|addrs| - 1];
            |p| > |last| && p[0] == ' ' && p[|p| - |last|..] == last
  {
    var last := addrs[|addrs| - 1];
    var p := PeerList(addrs);
    var front := if |addrs| == 1 then " " else " " + Join(addrs[..|addrs| - 1], "  ") + "  ";
    assert p == front + last;
  }

  lemma SuffixOfSuffix(p: string, last: string, tail: string)
    requires |last| <= |p| && p[|p| - |last|..] == last
    requires |tail| <= |last| && last[|last| - |tail|..] == tail
    ensures p[|p| - |tail|..] == tail
  {
    assert p[|p| - |tail|..] == p[|p| - |last|..][|last| - |tail|..];
  }

  /** The part of the gossip command before the log path. */
  const CommandHead: string := "gossip -n 0.0.0.0 -l 9000 -r 9001 -m "

  /** The part of the gossip command between the log path and the peer list. */
  const PeerFlag: string := " --peer="

  /** The part of the gossip command after the peer list. */
  const CommandTail: string := " 2>&1 | tee /output.log"

  /** The command every node runs: gossip on all interfaces, listening on 9000, logging to
      the JSON log, with the whole peer list. */
  function GossipCommand(peers: string): string
  {
    CommandHead + LogPath + PeerFlag + peers + CommandTail
  }

  /** Reads the peer list back out of a gossip command. */
  function CommandPeers(cmd: string): (r: Option<string>)
    ensures r.Some? ==> GossipCommand(r.value) == cmd
  {
    var pre := CommandHead + LogPath + PeerFlag;
    if |cmd| >= |pre| + |CommandTail| && cmd[..|pre|] == pre && cmd[|cmd| - |CommandTail|..] == CommandTail
    then
      var peers := cmd[|pre|..|cmd| - |CommandTail|];
      assert cmd == pre + peers + CommandTail by {
        assert cmd == cmd[..|pre|] + cmd[|pre|..|cmd| - |CommandTail|] + cmd[|cmd| - |CommandTail|..];
      }
      Some(peers)
    else None
  }

  /** The gossip command carries the peer list unchanged. */
  lemma CommandPeersRoundTrip(peers: string)
    ensures CommandPeers(GossipCommand(peers)) == Some(peers)
  {
    var pre := CommandHead + LogPath + PeerFlag;
    var cmd := GossipCommand(peers);
    assert cmd == pre + peers + CommandTail;
    assert cmd[..|pre|] == pre;
    assert cmd[|cmd| - |CommandTail|..] == CommandTail;
    assert cmd[|pre|..|cmd| - |CommandTail|] == peers;
  }

  /** The gossip process logs to the path registered as the additional JSON log. */
  lemma CommandUsesRegisteredLog(peers: string)
    ensures var cmd := GossipCommand(peers);
            cmd[|CommandHead|..|CommandHead| + |LogPath|] == AdditionalLogs()["json"]
  {
    var cmd := GossipCommand(peers);
    assert cmd == CommandHead + (LogPath + (PeerFlag + peers + CommandTail));
  }

  /** The gossip process listens on the port the peer addresses advertise. */
  lemma CommandListensOnPort()
    ensures CommandHead[18..25] == "-l " + NatToString(Port)
  {
    PortText();
  }

  /** One node's task: open the tmux session, then send it the gossip command; the first
      failing call is the task's error. */
  function NodeTask(session: Outcome, launch: Outcome): (r: Outcome)
    ensures r.Pass? <==> session.Pass? && launch.Pass?
    ensures r.Fail? ==> r == session || r == launch
    ensures session.Fail? ==> r == session
  {
    if session.Fail? then session else launch
  }

  /** The per-node phase: every node prepares the same gossip command and runs its task, and
      every task counts one step when it ends, failed or not. The phase fails exactly when a
      task fails, with the error of one of the failed tasks. */
  method StartNodes(nodes: seq<Node>, peers: string, sessions: seq<Outcome>, launches: seq<Outcome>,
                    bs: BuildState)
    returns (r: Outcome, commands: seq<string>)
    requires |sessions| == |launches| == |nodes|
    modifies bs
    ensures |commands| == |nodes| && forall k :: 0 <= k < |nodes| ==> commands[k] == GossipCommand(peers)
    ensures r.Pass? <==> forall k :: 0 <= k < |nodes| ==> NodeTask(sessions[k], launches[k]).Pass?
    ensures r.Fail? ==> exists k :: 0 <= k < |nodes| && r == NodeTask(sessions[k], launches[k])
    ensures bs.progress == Advanced(old(bs.progress), bs.buildSteps, |nodes|)
    ensures bs.buildSteps == old(bs.buildSteps) && bs.stage == old(bs.stage) && bs.files == old(bs.files)
  {
    r := Pass;
    commands := [];
    var abs := 0;
    while abs < |nodes|
      invariant 0 <= abs <= |nodes|
      invariant |commands| == abs && forall k :: 0 <= k < abs ==> commands[k] == GossipCommand(peers)
      invariant r.Pass? <==> forall k :: 0 <= k < abs ==> NodeTask(sessions[k], launches[k]).Pass?
      invariant r.Fail? ==> exists k :: 0 <= k < abs && r == NodeTask(sessions[k], launches[k])
      invariant bs.progress == Advanced(old(bs.progress), bs.buildSteps, abs)
      invariant bs.buildSteps == old(bs.buildSteps) && bs.stage == old(bs.stage)
      invariant bs.files == old(bs.files)
    {
      var cmd := GossipCommand(peers);
      commands := commands + [cmd];
      var outcome := NodeTask(sessions[abs], launches[abs]);
      bs.IncrementBuildProgress();
      if r.Pass? && outcome.Fail? {
        r := outcome;
      }
      abs := abs + 1;
    }
  }

  /** The recipe: declare one step per requested node, build the peer list, then start
      gossip on every node. */
  method Build(requested: int, nodes: seq<Node>, sessions: seq<Outcome>, launches: seq<Outcome>,
               bs: BuildState)
    returns (r: Outcome, commands: seq<string>)
    requires |sessions| == |launches| == |nodes|
    modifies bs
    ensures bs.buildSteps == requested
    ensures |commands| == |nodes|
    ensures forall k :: 0 <= k < |nodes| ==> commands[k] == GossipCommand(PeerList(Addresses(nodes)))
    ensures r.Pass? <==> forall k :: 0 <= k < |nodes| ==> NodeTask(sessions[k], launches[k]).Pass?
    ensures r.Fail? ==> exists k :: 0 <= k < |nodes| && r == NodeTask(sessions[k], launches[k])
    ensures bs.progress == Advanced(old(bs.progress), requested, 2 * |nodes|)
    ensures bs.stage == "Starting plumtree" && bs.files == old(bs.files)
  {
    bs.SetBuildSteps(0 + requested * 1);
    var peers := BuildPeers(nodes, bs);
    bs.SetBuildStage("Starting plumtree");
    r, commands := StartNodes(nodes, peers, sessions, launches, bs);
    AdvancedAdd(old(bs.progress), requested, |nodes|, |nodes|);
    if r.Fail? {
      return r, commands;
    }
  }

  /** On a fresh tracker the budget of one step per node is used up by the peer loop, so the
      steps the node tasks count never move the counter. */
  lemma PeerLoopFillsBudget(n: nat)
    ensures Advanced(0, n, n) == n
    ensures Advanced(Advanced(0, n, n), n, n) == Advanced(0, n, n)
    ensures Advanced(0, n, 2 * n) == n
  {
  }
}
