/** The geth `Build` recipe as a sequential program: the per-node phases the executor fans
    out run here as loops over absolute node numbers, each task writing only its own slot of
    a preallocated result array. What the remote nodes print (the output of `geth account
    new`, the keystore text, the enode URL) arrives as input indexed by absolute number. */
module GethBuild {
  import opened Wrappers
  import opened Text
  import opened State
  import opened Topology
  import opened Geth

  /** The step budget Build declares. */
  function StepBudget(nodes: nat): nat
  {
    8 + 5 * nodes
  }

  /** The increments Build performs on a successful run: seven phase steps and five per node. */
  function StepsTaken(nodes: nat): nat
  {
    7 + 5 * nodes
  }

  /** What a successful build hands to the nodes. */
  datatype GethRun = GethRun(
    wallets: seq<string>,
    rawWallets: seq<string>,
    unlock: string,
    genesis: Genesis,
    imports: seq<seq<string>>,
    staticNodes: seq<string>)

  /** The wallet task of node `abs`: extract the address, count the step, store the escaped
      keystore; it writes only slot `abs` of the two arrays. */
  method WalletTask(abs: nat, accountOutput: string, keystore: string,
                    wallets: array<string>, rawWallets: array<string>, bs: BuildState)
    returns (r: Outcome)
    requires abs < wallets.Length && abs < rawWallets.Length && wallets != rawWallets
    modifies wallets, rawWallets, bs
    ensures r.Pass? <==> ExtractAddress(accountOutput).Ok?
    ensures r.Fail? ==> r.message == NoAddressError
    ensures r.Pass? ==> && wallets[..] == old(wallets[..])[abs := ExtractAddress(accountOutput).value]
                        && rawWallets[..] == old(rawWallets[..])[abs := EscapeQuotes(keystore)]
                        && bs.progress == Bumped(old(bs.progress), bs.buildSteps)
    ensures r.Fail? ==> wallets[..] == old(wallets[..]) && rawWallets[..] == old(rawWallets[..])
                        && bs.progress == old(bs.progress)
    ensures bs.buildSteps == old(bs.buildSteps) && bs.stage == old(bs.stage) && bs.files == old(bs.files)
  {
    var address := ExtractAddress(accountOutput);
    if address.Err? {
      return Fail(address.message);
    }
    wallets[abs] := address.value;
    bs.IncrementBuildProgress();
    rawWallets[abs] := EscapeQuotes(keystore);
    r := Pass;
  }

  /** How many account outputs carry an address: the wallet tasks that reach their
      progress step. */
  function AddressCount(outputs: seq<string>): (c: nat)
    ensures c <= |outputs|
  {
    if |outputs| == 0 then 0
    else AddressCount(outputs[..|outputs| - 1])
         + (if ExtractAddress(outputs[|outputs| - 1]).Ok? then 1 else 0)
  }

  lemma AddressCountStep(outputs: seq<string>, i: nat)
    requires i < |outputs|
    ensures AddressCount(outputs[..i + 1])
            == AddressCount(outputs[..i]) + (if ExtractAddress(outputs[i]).Ok? then 1 else 0)
  {
    assert outputs[..i + 1][..i] == outputs[..i];
  }

  /** Every wallet task counts its step exactly when every output carries an address. */
  lemma {:induction false} AddressCountAll(outputs: seq<string>)
    ensures AddressCount(outputs) == |outputs|
            <==> forall k :: 0 <= k < |outputs| ==> ExtractAddress(outputs[k]).Ok?
  {
    if |outputs| > 0 {
      var init := outputs[..|outputs| - 1];
      AddressCountAll(init);
      assert forall k :: 0 <= k < |init| ==> init[k] == outputs[k];
    }
  }

  /** The slots of the first `n` nodes whose output carries an address hold that address
      and the escaped keystore. */
  ghost predicate SlotsFilled(wallets: seq<string>, rawWallets: seq<string>,
                              accountOutputs: seq<string>, keystores: seq<string>, n: nat)
  {
    && n <= |wallets| && n <= |rawWallets| && n <= |accountOutputs| && n <= |keystores|
    && forall k :: 0 <= k < n && ExtractAddress(accountOutputs[k]).Ok? ==>
         wallets[k] == ExtractAddress(accountOutputs[k]).value
         && rawWallets[k] == EscapeQuotes(keystores[k])
  }

  /** One wallet task fills the next slot exactly when its output carries an address. */
  lemma SlotsFilledStep(w0: seq<string>, raw0: seq<string>, w1: seq<string>, raw1: seq<string>,
                        accountOutputs: seq<string>, keystores: seq<string>, abs: nat)
    requires SlotsFilled(w0, raw0, accountOutputs, keystores, abs)
    requires abs < |w0| && abs < |raw0| && abs < |accountOutputs| && abs < |keystores|
    requires ExtractAddress(accountOutputs[abs]).Ok? ==>
               && w1 == w0[abs := ExtractAddress(accountOutputs[abs]).value]
               && raw1 == raw0[abs := EscapeQuotes(keystores[abs])]
    requires ExtractAddress(accountOutputs[abs]).Err? ==> w1 == w0 && raw1 == raw0
    ensures SlotsFilled(w1, raw1, accountOutputs, keystores, abs + 1)
  {
  }

  /** The wallet phase: every node's wallet task, in absolute order; a failing task does not
      stop the others. */
  method WalletPhase(accountOutputs: seq<string>, keystores: seq<string>,
                     wallets: array<string>, rawWallets: array<string>, bs: BuildState)
    returns (ok: bool)
    requires wallets.Length == rawWallets.Length == |accountOutputs| == |keystores|
    requires wallets != rawWallets
    modifies wallets, rawWallets, bs
    ensures ok <==> AddressCount(accountOutputs) == |accountOutputs|
    ensures SlotsFilled(wallets[..], rawWallets[..], accountOutputs, keystores, |accountOutputs|)
    ensures bs.progress == Advanced(old(bs.progress), bs.buildSteps, AddressCount(accountOutputs))
    ensures bs.buildSteps == old(bs.buildSteps) && bs.stage == old(bs.stage) && bs.files == old(bs.files)
  {
    ok := true;
    var abs := 0;
    ghost var found := 0;
    while abs < |accountOutputs|
      invariant 0 <= found <= abs <= |accountOutputs|
      invariant found == AddressCount(accountOutputs[..abs])
      invariant ok <==> found == abs
      invariant SlotsFilled(wallets[..], rawWallets[..], accountOutputs, keystores, abs)
      invariant bs.progress == Advanced(old(bs.progress), bs.buildSteps, found)
      invariant bs.buildSteps == old(bs.buildSteps) && bs.stage == old(bs.stage)
      invariant bs.files == old(bs.files)
    {
      AddressCountStep(accountOutputs, abs);
      ghost var w0, raw0 := wallets[..], rawWallets[..];
      var r := WalletTask(abs, accountOutputs[abs], keystores[abs], wallets, rawWallets, bs);
      SlotsFilledStep(w0, raw0, wallets[..], rawWallets[..], accountOutputs, keystores, abs);
      if r.Pass? {
        found := found + 1;
      }
      ok := ok && r.Pass?;
      abs := abs + 1;
    }
    assert accountOutputs[..abs] == accountOutputs;
  }

  /** The wallet stage: the two result arrays, sized to the node count, and the wallet
      phase over them. */
  method CreateWallets(accountOutputs: seq<string>, keystores: seq<string>, bs: BuildState)
    returns (ok: bool, wallets: seq<string>, rawWallets: seq<string>)
    requires |accountOutputs| == |keystores|
    modifies bs
    ensures ok <==> AddressCount(accountOutputs) == |accountOutputs|
    ensures ok ==> WalletsAgree(wallets, rawWallets, accountOutputs, keystores)
    ensures bs.progress == Advanced(old(bs.progress), bs.buildSteps, AddressCount(accountOutputs))
    ensures bs.stage == "Creating the wallets"
    ensures bs.buildSteps == old(bs.buildSteps) && bs.files == old(bs.files)
  {
    var w := new string[|accountOutputs|];
    var raw := new string[|accountOutputs|];
    bs.SetBuildStage("Creating the wallets");
    ok := WalletPhase(accountOutputs, keystores, w, raw, bs);
    AddressCountAll(accountOutputs);
    wallets, rawWallets := w[..], raw[..];
  }

  /** The bootstrapping phase: each node imports every keystore but its own. */
  method ImportPhase(rawWallets: seq<string>) returns (imports: seq<seq<string>>)
    ensures ImportsAgree(imports, rawWallets)
  {
    imports := [];
    var abs := 0;
    while abs < |rawWallets|
      invariant 0 <= abs <= |rawWallets| && |imports| == abs
      invariant forall a :: 0 <= a < abs ==> |imports[a]| == |rawWallets| - 1
      invariant forall a, k :: 0 <= a < abs && 0 <= k < |imports[a]| ==>
                  imports[a][k] == ImportCommand(rawWallets[Skip(a, k)], Skip(a, k))
    {
      var cmds := ImportCommands(abs, rawWallets);
      imports := imports + [cmds];
      abs := abs + 1;
    }
  }

  /** The initialisation task of node `abs`: its enode URL with its own IP put in place of
      the address geth reports, stored in slot `abs` only. */
  method InitTask(abs: nat, enode: string, ip: string, staticNodes: array<string>, bs: BuildState)
    requires abs < staticNodes.Length
    modifies staticNodes, bs
    ensures staticNodes[abs] == ReplaceHosts(enode, ip)
    ensures forall k :: 0 <= k < staticNodes.Length && k != abs ==> staticNodes[k] == old(staticNodes[k])
    ensures bs.progress == Bumped(old(bs.progress), bs.buildSteps)
    ensures bs.buildSteps == old(bs.buildSteps) && bs.stage == old(bs.stage) && bs.files == old(bs.files)
  {
    staticNodes[abs] := ReplaceHosts(enode, ip);
    bs.IncrementBuildProgress();
  }

  /** The initialisation phase over all nodes. */
  method InitPhase(enodes: seq<string>, ips: seq<string>, staticNodes: array<string>, bs: BuildState)
    requires staticNodes.Length == |enodes| == |ips|
    modifies staticNodes, bs
    ensures StaticNodesAgree(staticNodes[..], enodes, ips)
    ensures bs.progress == Advanced(old(bs.progress), bs.buildSteps, |enodes|)
    ensures bs.buildSteps == old(bs.buildSteps) && bs.stage == old(bs.stage) && bs.files == old(bs.files)
  {
    var abs := 0;
    while abs < |enodes|
      invariant 0 <= abs <= |enodes|
      invariant forall k :: 0 <= k < abs ==> staticNodes[k] == ReplaceHosts(enodes[k], ips[k])
      invariant bs.progress == Advanced(old(bs.progress), bs.buildSteps, abs)
      invariant bs.buildSteps == old(bs.buildSteps) && bs.stage == old(bs.stage)
      invariant bs.files == old(bs.files)
    {
      InitTask(abs, enodes[abs], ips[abs], staticNodes, bs);
      abs := abs + 1;
    }
  }

  /** The launch phase: each node's task counts a step before and after starting geth. */
  method LaunchPhase(nodes: nat, bs: BuildState)
    modifies bs
    ensures bs.progress == Advanced(old(bs.progress), bs.buildSteps, 2 * nodes)
    ensures bs.buildSteps == old(bs.buildSteps) && bs.stage == old(bs.stage) && bs.files == old(bs.files)
  {
    var abs := 0;
    while abs < nodes
      invariant 0 <= abs <= nodes
      invariant bs.progress == Advanced(old(bs.progress), bs.buildSteps, 2 * abs)
      invariant bs.buildSteps == old(bs.buildSteps) && bs.stage == old(bs.stage)
      invariant bs.files == old(bs.files)
    {
      bs.IncrementBuildProgress();
      bs.IncrementBuildProgress();
      abs := abs + 1;
    }
  }

  /** The statistics-agent phase: each node's task counts one step. */
  method StatsPhase(nodes: nat, bs: BuildState)
    modifies bs
    ensures bs.progress == Advanced(old(bs.progress), bs.buildSteps, nodes)
    ensures bs.buildSteps == old(bs.buildSteps) && bs.stage == old(bs.stage) && bs.files == old(bs.files)
  {
    var abs := 0;
    while abs < nodes
      invariant 0 <= abs <= nodes
      invariant bs.progress == Advanced(old(bs.progress), bs.buildSteps, abs)
      invariant bs.buildSteps == old(bs.buildSteps) && bs.stage == old(bs.stage)
      invariant bs.files == old(bs.files)
    {
      bs.IncrementBuildProgress();
      abs := abs + 1;
    }
  }

  /** The wallets and escaped keystores of all nodes, slot by absolute number. */
  ghost predicate WalletsAgree(wallets: seq<string>, rawWallets: seq<string>,
                         accountOutputs: seq<string>, keystores: seq<string>)
  {
    && |wallets| == |accountOutputs| && |rawWallets| == |keystores| == |accountOutputs|
    && forall k :: 0 <= k < |accountOutputs| ==>
         && ExtractAddress(accountOutputs[k]).Ok?
         && wallets[k] == ExtractAddress(accountOutputs[k]).value
         && rawWallets[k] == EscapeQuotes(keystores[k])
  }

  /** The genesis header fields and allocation for the given wallets. */
  ghost predicate GenesisAgrees(g: Genesis, conf: EthConf, wallets: seq<string>)
  {
    && g.chainId == conf.networkId && g.homesteadBlock == conf.homesteadBlock
    && g.eip155Block == conf.eip155Block && g.eip158Block == conf.eip158Block
    && g.difficulty == HexField(conf.difficulty) && g.gasLimit == HexField(conf.gasLimit)
    && (forall key :: key in g.alloc <==>
          key in wallets || exists k :: 1 <= k <= conf.extraAccounts && key == FakeAccount(k))
    && (forall key :: key in g.alloc ==> g.alloc[key] == Balance(conf.initBalance))
  }

  /** Node `abs` imports every keystore but its own, in order. */
  ghost predicate ImportsAgree(imports: seq<seq<string>>, rawWallets: seq<string>)
  {
    && |imports| == |rawWallets|
    && (forall abs :: 0 <= abs < |rawWallets| ==> |imports[abs]| == |rawWallets| - 1)
    && forall abs, k :: 0 <= abs < |rawWallets| && 0 <= k < |imports[abs]| ==>
         imports[abs][k] == ImportCommand(rawWallets[Skip(abs, k)], Skip(abs, k))
  }

  /** Each node's enode record carries that node's own IP. */
  ghost predicate StaticNodesAgree(staticNodes: seq<string>, enodes: seq<string>, ips: seq<string>)
  {
    && |staticNodes| == |enodes| == |ips|
    && forall k :: 0 <= k < |enodes| ==> staticNodes[k] == ReplaceHosts(enodes[k], ips[k])
  }

  /** Everything a successful build derives from the wallets and hands to the nodes. */
  ghost predicate RunAgrees(run: GethRun, conf: EthConf, servers: seq<Server>, enodes: seq<string>)
  {
    && run.unlock == Join(run.wallets, ",")
    && GenesisAgrees(run.genesis, conf, run.wallets)
    && ImportsAgree(run.imports, run.rawWallets)
    && StaticNodesAgree(run.staticNodes, enodes, NodeIps(servers))
  }

  /** Budget, first step, password file, second step. */
  method Prologue(nodes: nat, bs: BuildState)
    modifies bs
    ensures bs.buildSteps == StepBudget(nodes)
    ensures bs.progress == Advanced(old(bs.progress), StepBudget(nodes), 2)
    ensures bs.files == old(bs.files)["passwd" := PasswordText(nodes)]
    ensures bs.stage == "Distributing secrets"
  {
    bs.SetBuildSteps(StepBudget(nodes));
    bs.IncrementBuildProgress();
    var data := PasswordData(nodes);
    bs.Write("passwd", data);
    bs.SetBuildStage("Distributing secrets");
    bs.IncrementBuildProgress();
  }

  /** The unlock list and the genesis values, with their three steps. */
  method GenesisStep(conf: EthConf, wallets: seq<string>, bs: BuildState)
    returns (unlock: string, genesis: Genesis)
    requires conf.extraAccounts >= 0
    modifies bs
    ensures unlock == Join(wallets, ",") && GenesisAgrees(genesis, conf, wallets)
    ensures bs.progress == Advanced(old(bs.progress), bs.buildSteps, 3)
    ensures bs.stage == "Creating the genesis block"
    ensures bs.buildSteps == old(bs.buildSteps) && bs.files == old(bs.files)
  {
    ghost var p0 := bs.progress;
    bs.IncrementBuildProgress();
    unlock := UnlockList(wallets);
    bs.IncrementBuildProgress();
    assert bs.progress == Advanced(p0, bs.buildSteps, 2);
    bs.SetBuildStage("Creating the genesis block");
    genesis := CreateGenesis(conf, wallets);
    bs.IncrementBuildProgress();
  }

  /** The static-nodes step, the launch phase, the statistics-agent phase and the steps
      between them. */
  method Finale(nodes: nat, bs: BuildState)
    modifies bs
    ensures bs.progress == Advanced(old(bs.progress), bs.buildSteps, 2 + 3 * nodes)
    ensures bs.stage == "Starting geth"
    ensures bs.buildSteps == old(bs.buildSteps) && bs.files == old(bs.files)
  {
    ghost var p0 := bs.progress;
    bs.IncrementBuildProgress();
    bs.SetBuildStage("Starting geth");
    assert bs.progress == Advanced(p0, bs.buildSteps, 1);
    LaunchPhase(nodes, bs);
    AdvancedAdd(p0, bs.buildSteps, 1, 2 * nodes);
    bs.IncrementBuildProgress();
    assert bs.progress == Advanced(p0, bs.buildSteps, 2 + 2 * nodes);
    StatsPhase(nodes, bs);
    AdvancedAdd(p0, bs.buildSteps, 2 + 2 * nodes, nodes);
  }

  /** Everything after the wallet phase: unlock list and genesis, imports, enode records,
      launch and statistics agents. */
  method AfterWallets(conf: EthConf, servers: seq<Server>, enodes: seq<string>,
                      wallets: seq<string>, rawWallets: seq<string>, bs: BuildState)
    returns (run: GethRun)
    requires conf.extraAccounts >= 0 && NodeCount(servers) == |enodes| == |wallets|
    modifies bs
    ensures run.wallets == wallets && run.rawWallets == rawWallets
    ensures RunAgrees(run, conf, servers, enodes)
    ensures bs.progress == Advanced(old(bs.progress), bs.buildSteps, 5 + 4 * |wallets|)
    ensures bs.stage == "Starting geth"
    ensures bs.buildSteps == old(bs.buildSteps) && bs.files == old(bs.files)
  {
    ghost var p0 := bs.progress;
    var n := |wallets|;
    var unlock, genesis := GenesisStep(conf, wallets, bs);

    bs.SetBuildStage("Bootstrapping network");
    var imports := ImportPhase(rawWallets);

    var staticNodes := new string[n];
    bs.SetBuildStage("Initializing geth");
    InitPhase(enodes, NodeIps(servers), staticNodes, bs);
    AdvancedAdd(p0, bs.buildSteps, 3, n);

    Finale(n, bs);
    AdvancedAdd(p0, bs.buildSteps, 3 + n, 2 + 3 * n);

    run := GethRun(wallets, rawWallets, unlock, genesis, imports, staticNodes[..]);
  }

  /** Budget, password file and wallets: everything up to the first point where the build
      can fail. */
  method WalletStage(nodes: nat, accountOutputs: seq<string>, keystores: seq<string>, bs: BuildState)
    returns (ok: bool, wallets: seq<string>, rawWallets: seq<string>)
    requires |accountOutputs| == nodes && |keystores| == nodes
    modifies bs
    ensures ok <==> AddressCount(accountOutputs) == nodes
    ensures ok ==> WalletsAgree(wallets, rawWallets, accountOutputs, keystores)
    ensures bs.buildSteps == StepBudget(nodes)
    ensures bs.progress == Advanced(old(bs.progress), StepBudget(nodes), 2 + AddressCount(accountOutputs))
    ensures bs.files == old(bs.files)["passwd" := PasswordText(nodes)]
    ensures bs.stage == "Creating the wallets"
  {
    ghost var p0 := bs.progress;
    Prologue(nodes, bs);
    ok, wallets, rawWallets := CreateWallets(accountOutputs, keystores, bs);
    AdvancedAdd(p0, StepBudget(nodes), 2, AddressCount(accountOutputs));
  }

  /** The build recipe. */
  method Build(conf: Result<EthConf>, servers: seq<Server>, nodes: nat,
               accountOutputs: seq<string>, keystores: seq<string>, enodes: seq<string>,
               bs: BuildState)
    returns (r: Result<GethRun>)
    requires NodeCount(servers) == nodes
    requires |accountOutputs| == nodes && |keystores| == nodes && |enodes| == nodes
    requires conf.Ok? ==> conf.value.extraAccounts >= 0
    modifies bs
    ensures conf.Err? ==> r == Err(conf.message) && bs.progress == old(bs.progress)
                          && bs.buildSteps == old(bs.buildSteps) && bs.stage == old(bs.stage)
                          && bs.files == old(bs.files)
    ensures conf.Ok? ==> bs.buildSteps == StepBudget(nodes)
                         && bs.files == old(bs.files)["passwd" := PasswordText(nodes)]
    ensures r.Ok? <==> conf.Ok? && forall k :: 0 <= k < nodes ==> ExtractAddress(accountOutputs[k]).Ok?
    ensures conf.Ok? && r.Err? ==>
              && r.message == NoAddressError && bs.stage == "Creating the wallets"
              && bs.progress == Advanced(old(bs.progress), StepBudget(nodes), 2 + AddressCount(accountOutputs))
    ensures r.Ok? ==> bs.progress == Advanced(old(bs.progress), StepBudget(nodes), StepsTaken(nodes))
                      && bs.stage == "Starting geth"
    ensures r.Ok? ==> WalletsAgree(r.value.wallets, r.value.rawWallets, accountOutputs, keystores)
    ensures r.Ok? ==> RunAgrees(r.value, conf.value, servers, enodes)
  {
    if conf.Err? {
      return Err(conf.message);
    }
    var ok, wallets, rawWallets := WalletStage(nodes, accountOutputs, keystores, bs);
    AddressCountAll(accountOutputs);
    if !ok {
      return Err(NoAddressError);
    }
    var run := AfterWallets(conf.value, servers, enodes, wallets, rawWallets, bs);
    r := Ok(run);
  }

  /** From a fresh tracker, a successful build ends one step short of the budget it
      declares: the shown increments number 7 + 5 per node against 8 + 5 per node. */
  lemma FreshBuildProgress(nodes: nat)
    ensures Bumps(0, StepBudget(nodes), StepsTaken(nodes)) == StepsTaken(nodes)
    ensures StepsTaken(nodes) == StepBudget(nodes) - 1
  {
    BumpsFromZero(StepBudget(nodes), StepsTaken(nodes));
  }
}
