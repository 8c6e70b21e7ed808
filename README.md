# Whiteblock genesis: request validation, geth and plumtree build recipes

Genesis deploys blockchain test networks onto Docker containers spread over a set of
servers. A deployment request first passes the manager's validator. The recipe of the
requested protocol then builds the network, reporting its progress through a shared build
tracker. The tracker holds a step budget, a progress counter, a stage label and named
artifacts. This project models three parts of that:

- **The request validator** (`validator.dfy`, `validator_cases.dfy`). It is a fail-fast
  chain of checks: presence of the required fields, node count, per-node resource limits,
  image names, protocol name. Its implementation file is not part of this model. Its
  behaviour is reconstructed from the table-driven cases of
  `manager/paramValidators_test.go`, and every case is proved against the model.
- **The geth recipe** (`geth.dfy` for the pure fragments, `geth_build.dfy` for the recipe),
  which covers:
  - the password file and the fake genesis accounts;
  - wallet-address extraction from `geth account new`, keystore escaping and the unlock list;
  - the commands that import every other node's keystore;
  - the substitution of a node's IP into its enode URL;
  - the genesis values and the progress the recipe reports.
- **The plumtree recipe** (`plumtree.dfy`): the peer list, the gossip command each node
  runs, the per-node tasks and the progress.

Shared pieces:

- `wrappers.dfy`: Go's nil-or-error values and the "first error wins" rule.
- `text.dfy`: the Go formatting and parsing the code relies on: `%d`, `%X`,
  `strconv.Quote` (exact for ASCII text), `strconv.ParseInt` in base 10 with 64 bits, and
  joining and splitting.
- `state.dfy`: the build tracker as a class.
- `topology.dfy`: the absolute numbering of nodes across servers.

How the concurrent parts are modelled:

- The per-node executor fans a task out to every node and writes each result into the slot
  of that node's absolute number. Here the fan-out is a sequential loop over absolute
  numbers, in which every task runs.
- The remote node's answers are inputs, indexed by absolute number: the console output, the
  keystore text, the enode URL, and the outcome of each `tmux` call.
- The geth phases write into preallocated `array`s, one slot per task. `topology.dfy`
  proves that distinct (server, node) pairs get distinct slots.
- The tracker's own code is not part of this model. It is assumed to clamp at its budget:
  an increment at or past the budget has no effect. A counter that starts within the budget
  therefore stays within it (`State.BumpsWithinBudget`).

Progress and errors as the code shows them:

- The increments shown in `blockchains/geth/geth.go` number 7 + 5 per node (lines 43, 65,
  107, 126, 137, 145, 210, 230, 241, 266, 273, 311) against a declared budget of 8 + 5 per
  node (line 41). `GethBuild.FreshBuildProgress` states this. The helpers `CopyToServers`
  and `AllNodeExecCon` receive the tracker and are not part of this model.
- The executor's choice among several failing tasks' errors is not shown.
  - In geth, the only failure a wallet task can have in the model is the constant
    "Unable to get addresses" (line 97), so the choice does not matter there.
  - `Plumtree.StartNodes` claims only that the phase fails exactly when a task fails, with
    the error of one of the failed tasks (plumtree.go:93-108).

## Model

| member | source | states |
|---|---|---|
| Wrappers.FirstFailure | manager/paramValidators_test.go:367-429 | a chain of steps passes iff every step passes; otherwise it reports a failing step such that every step before it passed |
| Wrappers.FirstFailureCons | manager/paramValidators_test.go:367-429 | a passing first step defers to the rest; a failing one is the chain's result |
| Validator.CheckForNilOrMissing | manager/paramValidators_test.go:255-365 | passes iff the servers and images are non-nil and non-empty and the protocol name is non-empty; each of the five messages is returned exactly when its condition is the first in the order servers nil, servers empty, protocol empty, images nil, images empty |
| Validator.ValidateNumOfNodes | manager/paramValidators_test.go:79-141 | passes iff 1 <= nodes <= 200; below 1 gives "must have at least 1 node", above 200 gives "too many nodes: max of 200 nodes" |
| Validator.FirstBadFrom | manager/paramValidators_test.go:170-178 | the scan finds nothing iff every remaining character is allowed; otherwise it finds the first disallowed one |
| Validator.CheckCharset | manager/paramValidators_test.go:170-178 | passes iff every character is in the allow-list; a failure quotes the string and names its first disallowed character |
| Validator.CharsetErrorAt | manager/paramValidators_test.go:232-242 | the first disallowed character alone determines the error text |
| Validator.CheckResourceField | manager/paramValidators_test.go:36-67 | a limit passes iff all its characters are allowed and it is empty or parses as a 64-bit integer; a charset failure comes first, and otherwise the error is ParseInt's own text |
| Validator.CheckResources | manager/paramValidators_test.go:44 | a node passes iff its cpu and memory limits both pass; a failing cpu limit gives the cpu error, otherwise the result is the memory limit's |
| Validator.FirstBadResourceFrom | manager/paramValidators_test.go:31-77 | the scan finds nothing iff every remaining node passes; otherwise it finds the first failing node |
| Validator.ValidateResources | manager/paramValidators_test.go:31-77 | passes iff every node's limits pass; a failure is the first failing node's error followed by ". For node <index>" |
| Validator.FirstBadImageFrom | manager/paramValidators_test.go:143-189 | the scan finds nothing iff every remaining image name passes; otherwise it finds the first failing one |
| Validator.ValidateImages | manager/paramValidators_test.go:143-189 | passes iff the image list is nil or every name passes; a failure is the first failing name's charset error, with no node suffix |
| Validator.ValidateBlockchain | manager/paramValidators_test.go:191-253 | passes iff every character of the protocol name is allowed; a failure is the charset error naming its first disallowed character |
| Validator.Validate | manager/paramValidators_test.go:367-429 | passes iff all five stages pass |
| Validator.ValidateIsFailFast | manager/paramValidators_test.go:404-419 | the result is the first failing stage in the order presence, node count, resources, images, protocol name |
| Validator.FirstFailureOfFive | manager/paramValidators_test.go:404-419 | the first failure of five outcomes is the first of them that fails |
| Validator.ValidRequestShape | manager/paramValidators_test.go:367-429 | an accepted request has servers and images, a protocol name, 1 to 200 nodes, and only allowed characters in its protocol and image names |
| ValidatorCases.TildeError | manager/paramValidators_test.go:50 | "~" is rejected with `"~" contains invalid character '~'` under every allow-list consistent with the cases |
| ValidatorCases.TildeText | manager/paramValidators_test.go:178 | the charset error text for "~" |
| ValidatorCases.SpaceSyntaxError | manager/paramValidators_test.go:418 | ParseInt of " " is a syntax error whose text is `strconv.ParseInt: parsing " ": invalid syntax` |
| ValidatorCases.SpaceIsNotAnInteger | manager/paramValidators_test.go:418 | a limit of " " passes the allow-list and fails with ParseInt's syntax error |
| ValidatorCases.SingleNode | manager/paramValidators_test.go:50 | with one node, a resource failure is that node's error followed by ". For node 0" |
| ValidatorCases.ResourcesCases | manager/paramValidators_test.go:36-67 | both cases of Test_validateResources |
| ValidatorCases.NumOfNodesCases | manager/paramValidators_test.go:84-131 | the three cases of Test_validateNumOfNodes |
| ValidatorCases.ImagesCases | manager/paramValidators_test.go:148-179 | both cases of Test_validateImages; only the first bad image is named |
| ValidatorCases.BadNameError | manager/paramValidators_test.go:242 | the apostrophe is the first disallowed character of `test_blockchain_doesn't~exist`, and the error names it |
| ValidatorCases.BlockchainCases | manager/paramValidators_test.go:196-243 | the three cases of Test_validateBlockchain; the images are not examined |
| ValidatorCases.PresenceCases | manager/paramValidators_test.go:260-355 | the six cases of Test_checkForNilOrMissing |
| ValidatorCases.ValidateCases | manager/paramValidators_test.go:372-419 | the three cases of Test_validate; the resource error is reported before the bad images and the bad protocol name |
| Text.NatToString | blockchains/plumtree/plumtree.go:77-81 | `%d` of a non-negative number is a non-empty run of decimal digits |
| Text.IntToString | blockchains/plumtree/plumtree.go:77-81 | `%d` of an integer is its digits, preceded by a minus sign when it is negative |
| Text.DecimalRoundTrip | blockchains/geth/geth.go:164 | the digits `%d` prints denote the number |
| Text.UpperHex | blockchains/geth/geth.go:327 | `%X` is a non-empty run of upper-case hexadecimal digits |
| Text.HexRoundTrip | blockchains/geth/geth.go:327 | the digits `%X` prints denote the number |
| Text.HexLength | blockchains/geth/geth.go:327-330 | `%X` of n has at most d digits iff n < 16^d |
| Text.HexLeadingZeros | blockchains/geth/geth.go:328-330 | prefixed zeros do not change the value of a hexadecimal string |
| Text.PadZeros | blockchains/geth/geth.go:328-330 | the padded string is zeros followed by the original, at least `width` long |
| Text.SplitJoin | blockchains/geth/geth.go:127-134 | splitting a joined list on its separator gives the list back when no part holds the separator |
| Text.QuotePlain | manager/paramValidators_test.go:418 | quoting a string of printable ASCII characters other than `"` and `\` surrounds it with double quotes |
| Text.ParseInt | manager/paramValidators_test.go:418 | a parsed value lies in the signed 64-bit range; `Text.ParseIntMeaning` states its result on every input |
| Text.ParseIntRoundTrip | manager/paramValidators_test.go:36-67 | every 64-bit integer printed in decimal parses back to itself, so valid numeric limits pass |
| Text.ParseIntMeaning | manager/paramValidators_test.go:401-418 | text that is an optional sign and one or more digits parses to the integer it denotes if that fits in 64 bits, otherwise it is a range error; any other text is a syntax error unless the digits before its first non-digit already exceed the unsigned 64-bit maximum |
| Text.ParseIntAccepts | manager/paramValidators_test.go:401-418 | ParseInt succeeds iff the text is an optional sign and a non-empty digit run whose signed value fits in 64 bits, and the result is that value |
| Text.ParseIntNonDigit | manager/paramValidators_test.go:401-418 | no digits, or a non-digit straight after the optional sign, is a syntax error (the " " limit of the test) |
| State.Bumped | blockchains/geth/geth.go:43 | an increment advances the counter by one exactly when it is below the budget |
| State.BumpsClosedForm | blockchains/geth/geth.go:41-43 | k increments from p move the counter to p + k cut off at the budget |
| State.BumpsAdd | blockchains/geth/geth.go:41-43 | a increments then b increments are a + b increments |
| State.AdvancedStep | blockchains/geth/geth.go:43 | one more increment advances the closed form by one step |
| State.AdvancedAdd | blockchains/geth/geth.go:41-43 | the closed form composes additively |
| State.BumpsWithinBudget | blockchains/geth/geth.go:41-43 | a counter that starts within the budget stays within it, however many increments follow |
| State.BumpsFromZero | blockchains/geth/geth.go:41-43 | from zero, k increments give min(k, budget) |
| State.BuildState.SetBuildSteps | blockchains/geth/geth.go:41 | sets the budget and nothing else |
| State.BuildState.IncrementBuildProgress | blockchains/geth/geth.go:43 | advances the counter by one unless it is at the budget, and changes nothing else |
| State.BuildState.SetBuildStage | blockchains/geth/geth.go:57 | sets the stage label and nothing else |
| State.BuildState.Write | blockchains/geth/geth.go:51 | stores the named artifact, replacing an earlier one, and changes nothing else |
| Topology.NodeIps | blockchains/geth/geth.go:182 | one IP per node, in absolute order |
| Topology.AbsoluteIpLookup | blockchains/geth/geth.go:182 | the IP a task reads through its server and local number is the one at its absolute number |
| Topology.AbsoluteIndexInjective | blockchains/geth/geth.go:104 | distinct (server, node) pairs have distinct absolute numbers, so the per-node slot writes never collide |
| Topology.OffsetMonotone | blockchains/geth/geth.go:104 | the absolute numbers of later servers start no earlier |
| Geth.FakeAccountShape | blockchains/geth/geth.go:324-335 | a fake account is `0x` and upper-case hex digits denoting its number; it is 42 characters long iff the number fits in 40 hex digits |
| Geth.FakeAccount | blockchains/geth/geth.go:327-331 | account `i` as the loop formats it; `Geth.FakeAccountShape` states that it is `0x` and upper-case hex digits denoting `i`, 42 characters for every `i` below 16^40 |
| Geth.MakeFakeAccounts | blockchains/geth/geth.go:324-335 | returns `accs` accounts, entry k being fake account k + 1 |
| Geth.FakeAccountsOrdered | blockchains/geth/geth.go:324-335 | fake accounts are pairwise distinct and the numbers they spell increase with position |
| Geth.PasswordData | blockchains/geth/geth.go:46-50 | the password text is the password line and a newline, once per node |
| Geth.RepeatedIsJoin | blockchains/geth/geth.go:48-50 | n lines each ending in a newline are the lines joined by newlines, plus a final newline |
| Geth.PasswordFileLines | blockchains/geth/geth.go:46-51 | the password file splits into exactly n lines "second" followed by an empty remainder, 7 characters per node |
| Geth.UnlockList | blockchains/geth/geth.go:127-134 | the unlock list is the wallets in absolute order joined by commas |
| Geth.UnlockListSplits | blockchains/geth/geth.go:127-134 | when no wallet holds a comma, the unlock list splits back into the wallets |
| Geth.ClassRunEnd | blockchains/geth/geth.go:94 | the greedy run of `[A-z\|0-9]` characters ends at the first character outside the class |
| Geth.FirstAddressMatchFrom | blockchains/geth/geth.go:94-95 | there is no match iff the pattern matches nowhere; otherwise the leftmost match is found |
| Geth.ExtractAddress | blockchains/geth/geth.go:96-97 | a failure is always "Unable to get addresses" |
| Geth.ExtractAddressIsFirstMatch | blockchains/geth/geth.go:94-100 | extraction fails iff the pattern matches nowhere; otherwise it yields the inside of the leftmost match without its braces |
| Geth.ExtractedAddressShape | blockchains/geth/geth.go:94-100 | an extracted address is a non-empty run of class characters with no brace and no comma |
| Geth.ExtractWrappedAddress | blockchains/geth/geth.go:94-100 | text holding a braced address, with no opening brace before it, extracts to that address |
| Geth.EscapeQuotes | blockchains/geth/geth.go:115 | the escaped text is no shorter than the original and does not begin with a bare quote |
| Geth.EscapeRoundTrip | blockchains/geth/geth.go:115 | unescaping the escaped keystore gives it back |
| Geth.EscapedQuotesArePreceded | blockchains/geth/geth.go:115 | every double quote of the escaped keystore is preceded by a backslash |
| Geth.Skip | blockchains/geth/geth.go:159-162 | the enumeration never yields the node's own number and is the identity below it |
| Geth.ImportCommands | blockchains/geth/geth.go:159-169 | node `abs` gets one command per other keystore, in order, each naming that keystore's number |
| Geth.ImportCommand | blockchains/geth/geth.go:164 | the `echo` command that appends one keystore to `/geth/keystore/account<i>`; `Geth.ImportCommands` states which keystore and number each node gets, and `Geth.EscapedQuotesArePreceded` that the keystore cannot end the quoted argument |
| Geth.SkipEnumeratesOthers | blockchains/geth/geth.go:159-162 | every other account is visited exactly once, in increasing order |
| Geth.DotGroupLength | blockchains/geth/geth.go:202 | a dotted group is absent or spans at least a digit and its dot |
| Geth.GroupsMatchLength | blockchains/geth/geth.go:202 | a match starts with a digit and does not overrun the text |
| Geth.HostMatchLength | blockchains/geth/geth.go:202 | a host match starts with `[` or a digit and does not overrun the text |
| Geth.HostMatcher | blockchains/geth/geth.go:202 | the host pattern never matches past the end of the text |
| Geth.ReplaceSkip | blockchains/geth/geth.go:204 | a stretch where the pattern does not match is copied unchanged |
| Geth.ReplaceMatch | blockchains/geth/geth.go:204 | a match is replaced as a whole |
| Geth.ReplaceOnce | blockchains/geth/geth.go:204 | a text with exactly one match has exactly that match replaced |
| Geth.ReplaceAll | blockchains/geth/geth.go:204 | Go's leftmost-first, non-overlapping replacement for a matcher; `Geth.ReplaceSkip`, `Geth.ReplaceMatch` and `Geth.ReplaceOnce` state that unmatched text is copied and each match is replaced whole |
| Geth.ReplaceHosts | blockchains/geth/geth.go:202-204 | replacement of every host match by the IP; `Geth.EnodeSubstitution` states that for a host as geth prints it only the host changes, and `Geth.LongHostKeepsTail` what other hosts leave behind |
| Geth.QuadMatchesWhole | blockchains/geth/geth.go:202 | a dotted quad followed by a colon matches in full |
| Geth.HostMatchesWhole | blockchains/geth/geth.go:202 | the `[::]` or dotted-quad host of an enode URL matches in full |
| Geth.PrefixNoMatch | blockchains/geth/geth.go:202-204 | no position of the `enode://<id>@` part starts a host match |
| Geth.EnodeSubstitution | blockchains/geth/geth.go:199-204 | in an enode URL with a `[::]` or dotted-quad host, as geth prints it, substitution replaces exactly the host by the node's IP and keeps the id and the port |
| Geth.LongHostKeepsTail | blockchains/geth/geth.go:199-204 | a host the enode pattern accepts that is not a dotted quad, `1.2.3.4.5`, keeps its tail `.5` after substitution |
| Geth.LongHostMatch | blockchains/geth/geth.go:202 | in `1.2.3.4.5` the host pattern matches the leading quad, 7 characters |
| Geth.HexFieldValue | blockchains/geth/geth.go:350-351 | `0x0%X` of a non-negative value is `0x` and hex digits denoting the value; of a negative value it is `0x0-` and the magnitude |
| Geth.HexField | blockchains/geth/geth.go:350-351 | the `0x0%X` genesis field; `Geth.HexFieldValue` states the digits denote the value for both signs |
| Geth.CreateGenesis | blockchains/geth/geth.go:343-368 | the header fields copy the configuration; the allocation has exactly the wallets and fake accounts 1..extraAccounts as keys, each with the initial balance |
| GethBuild.WalletTask | blockchains/geth/geth.go:87-119 | the task passes iff the output carries an address; on success it fills only its own two slots, with the address and the escaped keystore, and counts one step; on failure it changes nothing and reports "Unable to get addresses" |
| GethBuild.AddressCount | blockchains/geth/geth.go:96-107 | the number of wallet tasks that reach their progress step is at most the node count |
| GethBuild.AddressCountAll | blockchains/geth/geth.go:87-119 | every wallet task counts its step iff every output carries an address |
| GethBuild.SlotsFilledStep | blockchains/geth/geth.go:103-116 | one wallet task extends the filled slots by its own |
| GethBuild.WalletPhase | blockchains/geth/geth.go:87-123 | every task runs; the phase succeeds iff every output carries an address; each such node's slots hold its address and escaped keystore; progress advances once per address found |
| GethBuild.CreateWallets | blockchains/geth/geth.go:83-123 | on success the wallets and keystores agree with the node outputs slot by slot; the stage is "Creating the wallets" |
| GethBuild.ImportPhase | blockchains/geth/geth.go:153-171 | every node's import commands cover every other keystore, in order |
| GethBuild.InitTask | blockchains/geth/geth.go:181-212 | writes only its own slot, the enode URL with the node's IP substituted, and counts one step |
| GethBuild.InitPhase | blockchains/geth/geth.go:177-216 | every slot holds its node's enode URL with its own IP; one step per node |
| GethBuild.LaunchPhase | blockchains/geth/geth.go:239-268 | two steps per node |
| GethBuild.StatsPhase | blockchains/geth/geth.go:281-313 | one step per node |
| GethBuild.Prologue | blockchains/geth/geth.go:41-65 | declares the budget 8 + 5n, writes the password file, sets "Distributing secrets", counts two steps |
| GethBuild.StepBudget | blockchains/geth/geth.go:41 | the declared budget 8 + 5n; `GethBuild.Prologue` states it is declared, and `GethBuild.FreshBuildProgress` that a successful build ends one step short of it |
| GethBuild.GenesisStep | blockchains/geth/geth.go:126-145 | the unlock list and the genesis values for the wallets, three steps, stage "Creating the genesis block" |
| GethBuild.Finale | blockchains/geth/geth.go:230-313 | 2 + 3n steps, stage "Starting geth" |
| GethBuild.AfterWallets | blockchains/geth/geth.go:126-313 | the unlock list, genesis, imports and enode records all agree with the wallets and the topology; 5 + 4n steps |
| GethBuild.WalletStage | blockchains/geth/geth.go:41-123 | budget, password file and wallets; succeeds iff every output carries an address |
| GethBuild.Build | blockchains/geth/geth.go:31-315 | a configuration error is returned before anything changes; otherwise the build succeeds iff every wallet output carries an address; a failed build stops at "Creating the wallets" with "Unable to get addresses"; a successful one ends at "Starting geth", 7 + 5n steps on, with every returned value agreeing with the inputs |
| GethBuild.FreshBuildProgress | blockchains/geth/geth.go:41-311 | from a fresh tracker a successful build ends at 7 + 5n, one short of its budget |
| Plumtree.Services | blockchains/plumtree/plumtree.go:56-58 | the recipe asks for no services |
| Plumtree.AdditionalLogs | blockchains/plumtree/plumtree.go:44-45 | exactly one additional log, "json", at /plumtree/data/log.json |
| Plumtree.PortText | blockchains/plumtree/plumtree.go:73 | the port prints as "9000" |
| Plumtree.PeerAddressShape | blockchains/plumtree/plumtree.go:77-81 | a peer address is the node-name prefix with the local id, the IP, then ":9000" |
| Plumtree.PeerAddress | blockchains/plumtree/plumtree.go:77-81 | the Sprintf of one node's address; `Plumtree.PeerAddressShape` states its layout |
| Plumtree.Addresses | blockchains/plumtree/plumtree.go:76-81 | one peer address per node, in node order |
| Plumtree.SpacedThenLast | blockchains/plumtree/plumtree.go:82-86 | closing the loop's list with the last address, without a trailing space, gives the peer list |
| Plumtree.PeersStep | blockchains/plumtree/plumtree.go:82-86 | a round of the loop extends the list, or completes it at the last node |
| Plumtree.BuildPeers | blockchains/plumtree/plumtree.go:71-88 | the loop builds the peer list of all nodes' addresses and counts one step per node |
| Plumtree.PeerListEmpty | blockchains/plumtree/plumtree.go:74-88 | no nodes give an empty peer list |
| Plumtree.PeerListSnoc | blockchains/plumtree/plumtree.go:82-86 | one more node appends two spaces and its address; a single node is a space and its address |
| Plumtree.PeerListLast | blockchains/plumtree/plumtree.go:82-86 | a non-empty peer list starts with a space and ends with the last address |
| Plumtree.PeerListEnds | blockchains/plumtree/plumtree.go:76-88 | a non-empty peer list starts with a space and ends with ":9000", with no trailing space |
| Plumtree.PeerList | blockchains/plumtree/plumtree.go:82-86 | the peer list the loop builds; `Plumtree.BuildPeers` states the loop computes it, and `Plumtree.PeerListEmpty`, `Plumtree.PeerListSnoc`, `Plumtree.PeerListLast` and `Plumtree.PeerListEnds` its shape |
| Plumtree.CommandPeers | blockchains/plumtree/plumtree.go:96 | a peer list read back from a command rebuilds that command |
| Plumtree.CommandPeersRoundTrip | blockchains/plumtree/plumtree.go:96 | the gossip command carries the peer list unchanged |
| Plumtree.GossipCommand | blockchains/plumtree/plumtree.go:96 | the gossip command; `Plumtree.CommandPeersRoundTrip`, `Plumtree.CommandUsesRegisteredLog` and `Plumtree.CommandListensOnPort` state that it carries the peer list, the registered log path and the advertised port |
| Plumtree.CommandUsesRegisteredLog | blockchains/plumtree/plumtree.go:96 | the gossip process logs to the path registered as the JSON log |
| Plumtree.CommandListensOnPort | blockchains/plumtree/plumtree.go:96 | the gossip process listens on the port the peer addresses advertise |
| Plumtree.NodeTask | blockchains/plumtree/plumtree.go:98-104 | a task passes iff both tmux calls pass; a failing session call is the task's error |
| Plumtree.StartNodes | blockchains/plumtree/plumtree.go:92-108 | every node gets the same gossip command; the phase fails iff some task fails, with one of the failed tasks' errors; one step per node, failed or not |
| Plumtree.Build | blockchains/plumtree/plumtree.go:69-111 | budget as requested; every node is sent the command with the full peer list; fails iff some task fails; 2n steps, stage "Starting plumtree" |
| Plumtree.PeerLoopFillsBudget | blockchains/plumtree/plumtree.go:71-94 | from a fresh tracker the peer loop alone fills the budget of one step per node, so the deferred task steps never move the counter |

## Left out

- The validator's implementation file is not part of this model. Its behaviour follows the
  test cases.
  - The allow-list of characters is a parameter. The cases are proved for every allow-list
    that admits letters, digits, space and underscore and rejects `~`, `|` and `'`.
  - The position of the node-count check in the chain is not pinned by any case. The model
    places it second.
  - The charset error surrounds the string with plain double quotes. For the strings the
    cases use, this agrees with Go's `%q`.
- Validator.CheckResources: the cpu limit is checked completely, allow-list and then number,
  before the memory limit. No case tells this apart from running both allow-list scans
  first. For example, cpu " " with memory "~" gives cpu's ParseInt error here.
- Validator.CheckResourceField: the limit is parsed as a 64-bit integer in base 10. The cases
  show only the `strconv.ParseInt: parsing` prefix of the error, not the bit size.
- Volumes, ports, environments, files, logs and extras of a request are not validated by
  any case and are not modelled.
- Remote execution (`DockerExec`, `DockerCp`, `DockerExecd`, `DockerExecdit`, `client.Run`)
  is left out because it is I/O. Its outputs are inputs, and its failures are left out
  except the wallet task's "Unable to get addresses" and plumtree's tmux outcomes. This
  covers the `mkdir`/copy task (geth.go:67-80), the keystore read failure (geth.go:109-113),
  the genesis copy and import failures (geth.go:153-175), the init and console calls
  (geth.go:184-197), and launch and statistics failures.
- `helpers.CopyToServers`, `helpers.AllNodeExecCon` and `util.GetGateway` are not part of this
  model.
  - The executor is replaced by a sequential loop over absolute numbers in which every task
    runs.
  - No order among failing tasks is claimed, and the mutex is left out.
- Extraction of the enode URL from the console output (geth.go:199-200) is left out. The
  enode text is an input, and `Geth.EnodeSubstitution` covers URLs with a `[::]` or
  dotted-quad host, as geth prints it.
- Geth.EnodeSubstitution: the enode pattern at geth.go:199 also accepts hosts such as
  `1.2.3.4.5` or `1234.1.1.1`. For those, substitution leaves part of the old host in place
  (`Geth.LongHostKeepsTail`), and no general statement is made about them.
- Text.Quote: exact only for ASCII text. Non-ASCII characters are copied as they are,
  while Go writes those that `unicode.IsPrint` rejects (U+00A0, U+2028, …) as `\u` escapes.
  This affects the ParseInt error text for a limit holding such a character.
- Go's `regexp` is modelled only for the two patterns the recipes apply: the address pattern
  and the host pattern.
- `json.Marshal` of the static nodes and the `static-nodes.json` write (geth.go:218-228) are
  left out because they are serialisation. The static-node records are returned as a
  sequence.
- The genesis template is left out because it is file I/O and a third-party renderer. That
  covers `util.GetBlockchainConfig`, `mustache.Render` and the `CustomGenesis.json` write
  (geth.go:369-380). `Geth.CreateGenesis` returns the values handed to the template.
- `State.BuildState.Write`: the write is modelled as infallible, because the tracker's store
  is not part of this model.
- `NewConf` is not part of this model.
  - Its result is an input, success or error.
  - The `EthConf` fields are the ones the recipe reads.
- Geth.CreateGenesis: requires a non-negative `extraAccounts`, because Go's `make` panics on a
  negative length and the panic is not modelled.
- Geth.MakeFakeAccounts: takes a `nat` count, so the negative count on which Go's `make`
  panics (geth.go:325) is excluded rather than modelled.
- The command texts that are only formatted and sent are left out because they are
  formatting passed to I/O:
  - the geth launch command (geth.go:243-252);
  - the `sed` edits of the statistics agent (geth.go:283-287);
  - `setupEthNetStats` (geth.go:388-396);
  - the `tmux` command lines (plumtree.go:98, 103).

  Plumtree's gossip command is modelled.
- Logging and printing (`log.Println`, `fmt.Printf`, `fmt.Println` at plumtree.go:90) are
  left out because they are I/O.
- The protocol registrar calls (plumtree.go:39-43) are left out. Only the registered values
  are modelled: the additional logs and the services.
- `getParams` and `getDefaults` (plumtree.go:48-66) are left out because they read static
  files. The `Add` stubs (geth.go:319-322, plumtree.go:115-117) do nothing and are left out.
- Go's `int` is unbounded here. Node counts, local ids and `EthConf` values are far from
  the 64-bit limits in any deployment, so wrap-around is not modelled.
