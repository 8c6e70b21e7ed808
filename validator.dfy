/** The deployment-request validator of the manager: a fail-fast chain of checks, each a
    function from a request to a possibly-nil error. The checks run before any remote side
    effect, and the character scans guard names that are later spliced into shell commands. */
module Validator {
  import opened Wrappers
  import opened Text

  /** The part of a node's resource limits that is validated. */
  datatype Resources = Resources(cpus: string, memory: string)

  /** The fields of a deployment request that the checks read. `None` is a nil slice. */
  datatype DeploymentDetails = DeploymentDetails(
    id: string,
    servers: Option<seq<int>>,
    blockchain: string,
    nodes: int,
    images: Option<seq<string>>,
    resources: seq<Resources>)

  const MaxNodes := 200

  // ----- Presence -----

  /** The request shape every later stage relies on. */
  predicate WellFormed(d: DeploymentDetails)
  {
    && d.servers.Some? && d.servers.value != []
    && d.blockchain != ""
    && d.images.Some? && d.images.value != []
  }

  /** Required fields are present, checked in a fixed order: null servers, empty servers,
      empty blockchain, null images, empty images. Each message is returned exactly when its
      condition is the first to fail. */
  function CheckForNilOrMissing(d: DeploymentDetails): (r: Outcome)
    ensures r.Pass? <==> WellFormed(d)
    ensures r == Fail("servers cannot be null") <==> d.servers.None?
    ensures r == Fail("servers cannot be empty") <==> d.servers == Some([])
    ensures r == Fail("blockchain cannot be empty")
            <==> d.servers.Some? && d.servers.value != [] && d.blockchain == ""
    ensures r == Fail("images cannot be null")
            <==> d.servers.Some? && d.servers.value != [] && d.blockchain != "" && d.images.None?
    ensures r == Fail("images cannot be empty")
            <==> d.servers.Some? && d.servers.value != [] && d.blockchain != "" && d.images == Some([])
  {
    if d.servers.None? then Fail("servers cannot be null")
    else if d.servers.value == [] then Fail("servers cannot be empty")
    else if d.blockchain == "" then Fail("blockchain cannot be empty")
    else if d.images.None? then Fail("images cannot be null")
    else if d.images.value == [] then Fail("images cannot be empty")
    else Pass
  }

  // ----- Node count -----

  /** The node count lies between 1 and MaxNodes, with one message for each side. */
  function ValidateNumOfNodes(d: DeploymentDetails): (r: Outcome)
    ensures r.Pass? <==> 1 <= d.nodes <= MaxNodes
    ensures d.nodes < 1 ==> r == Fail("must have at least 1 node")
    ensures d.nodes > MaxNodes ==> r == Fail("too many nodes: max of 200 nodes")
  {
    if d.nodes < 1 then Fail("must have at least 1 node")
    else if d.nodes > MaxNodes then Fail("too many nodes: max of 200 nodes")
    else Pass
  }

  // ----- Character allow-list -----

  /** k is the position of the first character of s outside the allow-list. */
  predicate FirstOutside(s: string, allowed: set<char>, k: int)
  {
    0 <= k < |s| && s[k] !in allowed && forall j :: 0 <= j < k ==> s[j] in allowed
  }

  /** Left-to-right scan from position i for a character outside the allow-list. */
  function FirstBadFrom(s: string, allowed: set<char>, i: nat): (r: Option<nat>)
    requires i <= |s|
    ensures r.None? <==> forall k :: i <= k < |s| ==> s[k] in allowed
    ensures r.Some? ==> i <= r.value < |s| && s[r.value] !in allowed
                        && forall k :: i <= k < r.value ==> s[k] in allowed
    decreases |s| - i
  {
    if i == |s| then None
    else if s[i] !in allowed then Some(i)
    else FirstBadFrom(s, allowed, i + 1)
  }

  /** The error naming s, between double quotes, and the first disallowed character in it,
      between single quotes. */
  function CharsetError(s: string, c: char): string
  {
    "\"" + s + "\" contains invalid character '" + [c] + "'"
  }

  /** Scans s against the allow-list; reports the first disallowed character by value. */
  function CheckCharset(s: string, allowed: set<char>): (r: Outcome)
    ensures r.Pass? <==> forall k :: 0 <= k < |s| ==> s[k] in allowed
    ensures r.Fail? ==> exists k :: FirstOutside(s, allowed, k) && r.message == CharsetError(s, s[k])
  {
    match FirstBadFrom(s, allowed, 0)
    case None => Pass
    case Some(k) => assert FirstOutside(s, allowed, k); Fail(CharsetError(s, s[k]))
  }

  /** The first disallowed character determines the charset error completely. */
  lemma CharsetErrorAt(s: string, allowed: set<char>, k: int)
    requires FirstOutside(s, allowed, k)
    ensures CheckCharset(s, allowed) == Fail(CharsetError(s, s[k]))
  {
    var r := CheckCharset(s, allowed);
    assert !(forall j :: 0 <= j < |s| ==> s[j] in allowed) by { assert s[k] !in allowed; }
    var k' :| FirstOutside(s, allowed, k') && r.message == CharsetError(s, s[k']);
    assert k' == k;
  }

  // ----- Resources -----

  /** One cpu or memory string: the allow-list first, then, unless it is empty (meaning
      "unlimited"), ParseInt. */
  function CheckResourceField(s: string, allowed: set<char>): (r: Outcome)
    ensures r.Pass? <==> (forall k :: 0 <= k < |s| ==> s[k] in allowed)
                         && (s == "" || ParseInt(s).Parsed?)
    ensures r.Fail? && CheckCharset(s, allowed).Pass? ==> r.message == ParseIntError(s, ParseInt(s))
    ensures CheckCharset(s, allowed).Fail? ==> r == CheckCharset(s, allowed)
  {
    var c := CheckCharset(s, allowed);
    if c.Fail? then c
    else if s == "" then Pass
    else
      var p := ParseInt(s);
      if p.Parsed? then Pass else Fail(ParseIntError(s, p))
  }

  /** A node's limits: the cpu string is checked completely (allow-list, then number) before
      the memory string is looked at. */
  function CheckResources(res: Resources, allowed: set<char>): (r: Outcome)
    ensures r.Pass? <==> CheckResourceField(res.cpus, allowed).Pass?
                         && CheckResourceField(res.memory, allowed).Pass?
    ensures CheckResourceField(res.cpus, allowed).Fail? ==> r == CheckResourceField(res.cpus, allowed)
    ensures CheckResourceField(res.cpus, allowed).Pass? ==> r == CheckResourceField(res.memory, allowed)
  {
    var c := CheckResourceField(res.cpus, allowed);
    if c.Fail? then c else CheckResourceField(res.memory, allowed)
  }

  /** The error reported for node k: its own error with ". For node <k>" appended. */
  function NodeResourceError(rs: seq<Resources>, allowed: set<char>, k: nat): string
    requires k < |rs| && CheckResources(rs[k], allowed).Fail?
  {
    CheckResources(rs[k], allowed).message + ". For node " + NatToString(k)
  }

  /** The nodes' limits from node i on, in node order, up to the first rejected node. */
  function FirstBadResourceFrom(rs: seq<Resources>, allowed: set<char>, i: nat): (r: Option<nat>)
    requires i <= |rs|
    ensures r.None? <==> forall k :: i <= k < |rs| ==> CheckResources(rs[k], allowed).Pass?
    ensures r.Some? ==> i <= r.value < |rs| && CheckResources(rs[r.value], allowed).Fail?
                        && forall k :: i <= k < r.value ==> CheckResources(rs[k], allowed).Pass?
    decreases |rs| - i
  {
    if i == |rs| then None
    else if CheckResources(rs[i], allowed).Fail? then Some(i)
    else FirstBadResourceFrom(rs, allowed, i + 1)
  }

  /** Every node's limits, in node order; the first rejected node's error is returned with
      its index appended. */
  function ValidateResources(d: DeploymentDetails, allowed: set<char>): (r: Outcome)
    ensures r.Pass? <==> forall k :: 0 <= k < |d.resources| ==> CheckResources(d.resources[k], allowed).Pass?
    ensures r.Fail? ==> exists k: nat :: k < |d.resources| && CheckResources(d.resources[k], allowed).Fail?
                          && (forall j :: 0 <= j < k ==> CheckResources(d.resources[j], allowed).Pass?)
                          && r.message == NodeResourceError(d.resources, allowed, k)
  {
    match FirstBadResourceFrom(d.resources, allowed, 0)
    case None => Pass
    case Some(k) => Fail(NodeResourceError(d.resources, allowed, k))
  }

  // ----- Images and blockchain -----

  /** The images from position i on, in order, up to the first one holding a disallowed
      character. */
  function FirstBadImageFrom(images: seq<string>, allowed: set<char>, i: nat): (r: Option<nat>)
    requires i <= |images|
    ensures r.None? <==> forall k :: i <= k < |images| ==> CheckCharset(images[k], allowed).Pass?
    ensures r.Some? ==> i <= r.value < |images| && CheckCharset(images[r.value], allowed).Fail?
                        && forall k :: i <= k < r.value ==> CheckCharset(images[k], allowed).Pass?
    decreases |images| - i
  {
    if i == |images| then None
    else if CheckCharset(images[i], allowed).Fail? then Some(i)
    else FirstBadImageFrom(images, allowed, i + 1)
  }

  /** Every image name is scanned, in order; the first offending image is reported by its
      charset error, without a node suffix. A nil image list has no image to reject. */
  function ValidateImages(d: DeploymentDetails, allowed: set<char>): (r: Outcome)
    ensures r.Pass? <==> d.images.None?
                         || forall k :: 0 <= k < |d.images.value| ==> CheckCharset(d.images.value[k], allowed).Pass?
    ensures r.Fail? ==> exists k :: 0 <= k < |d.images.value| && r == CheckCharset(d.images.value[k], allowed)
                          && forall j :: 0 <= j < k ==> CheckCharset(d.images.value[j], allowed).Pass?
  {
    match d.images
    case None => Pass
    case Some(images) =>
      match FirstBadImageFrom(images, allowed, 0)
      case None => Pass
      case Some(k) => CheckCharset(images[k], allowed)
  }

  /** The protocol name gets the same scan as an image name; nothing else is read. */
  function ValidateBlockchain(d: DeploymentDetails, allowed: set<char>): (r: Outcome)
    ensures r.Pass? <==> forall c :: c in d.blockchain ==> c in allowed
    ensures r.Fail? ==> exists k :: FirstOutside(d.blockchain, allowed, k)
                                    && r.message == CharsetError(d.blockchain, d.blockchain[k])
  {
    CheckCharset(d.blockchain, allowed)
  }

  // ----- The chain -----

  /** The stages of `validate`, in the order they run. */
  function Stages(d: DeploymentDetails, allowed: set<char>): seq<Outcome>
  {
    [CheckForNilOrMissing(d), ValidateNumOfNodes(d), ValidateResources(d, allowed),
     ValidateImages(d, allowed), ValidateBlockchain(d, allowed)]
  }

  /** Runs the stages one after another and returns the first error. */
  function Validate(d: DeploymentDetails, allowed: set<char>): (r: Outcome)
    ensures r.Pass? <==> CheckForNilOrMissing(d).Pass? && ValidateNumOfNodes(d).Pass?
                         && ValidateResources(d, allowed).Pass? && ValidateImages(d, allowed).Pass?
                         && ValidateBlockchain(d, allowed).Pass?
  {
    var presence := CheckForNilOrMissing(d);
    if presence.Fail? then presence
    else
      var count := ValidateNumOfNodes(d);
      if count.Fail? then count
      else
        var resources := ValidateResources(d, allowed);
        if resources.Fail? then resources
        else
          var images := ValidateImages(d, allowed);
          if images.Fail? then images
          else ValidateBlockchain(d, allowed)
  }

  /** `validate` is fail-fast: its result is the first failing stage, in the order presence,
      node count, resources, images, blockchain. */
  lemma {:induction false} ValidateIsFailFast(d: DeploymentDetails, allowed: set<char>)
    ensures Validate(d, allowed) == FirstFailure(Stages(d, allowed))
  {
    FirstFailureOfFive(CheckForNilOrMissing(d), ValidateNumOfNodes(d), ValidateResources(d, allowed),
                       ValidateImages(d, allowed), ValidateBlockchain(d, allowed));
  }

  lemma FirstFailureOfFive(a: Outcome, b: Outcome, c: Outcome, d: Outcome, e: Outcome)
    ensures FirstFailure([a, b, c, d, e])
            == if a.Fail? then a else if b.Fail? then b else if c.Fail? then c else if d.Fail? then d else e
  {
    FirstFailureOfFour(b, c, d, e);
    FirstFailureCons(a, [b, c, d, e]);
    assert [a] + [b, c, d, e] == [a, b, c, d, e];
  }

  lemma FirstFailureOfFour(b: Outcome, c: Outcome, d: Outcome, e: Outcome)
    ensures FirstFailure([b, c, d, e])
            == if b.Fail? then b else if c.Fail? then c else if d.Fail? then d else e
  {
    FirstFailureOfThree(c, d, e);
    FirstFailureCons(b, [c, d, e]);
    assert [b] + [c, d, e] == [b, c, d, e];
  }

  lemma FirstFailureOfThree(c: Outcome, d: Outcome, e: Outcome)
    ensures FirstFailure([c, d, e]) == if c.Fail? then c else if d.Fail? then d else e
  {
    FirstFailureCons(e, []);
    assert [e] + [] == [e];
    FirstFailureCons(d, [e]);
    assert [d] + [e] == [d, e];
    FirstFailureCons(c, [d, e]);
    assert [c] + [d, e] == [c, d, e];
  }

  /** A request that passes `validate` has the shape the rest of the build relies on. */
  lemma ValidRequestShape(d: DeploymentDetails, allowed: set<char>)
    requires Validate(d, allowed).Pass?
    ensures WellFormed(d) && 1 <= d.nodes <= MaxNodes
    ensures forall k :: 0 <= k < |d.blockchain| ==> d.blockchain[k] in allowed
    ensures forall i, k :: 0 <= i < |d.images.value| && 0 <= k < |d.images.value[i]|
              ==> d.images.value[i][k] in allowed
  {
    var st := Stages(d, allowed);
    assert st[0].Pass? && st[1].Pass? && st[3].Pass? && st[4].Pass?;
    forall i | 0 <= i < |d.images.value|
      ensures forall k :: 0 <= k < |d.images.value[i]| ==> d.images.value[i][k] in allowed
    {
      assert CheckCharset(d.images.value[i], allowed).Pass?;
    }
  }
}
