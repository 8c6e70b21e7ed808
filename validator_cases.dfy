/** The table-driven cases of manager/paramValidators_test.go, stated against the model for
    every allow-list that agrees with what those cases reveal about it. */
module ValidatorCases {
  import opened Wrappers
  import opened Text
  import opened Validator

  /** What the cases reveal: letters, digits, space and underscore are allowed;
      tilde, bar and apostrophe are not. */
  predicate AgreesWithCases(allowed: set<char>)
  {
    && (forall c :: ('a' <= c <= 'z' || 'A' <= c <= 'Z' || '0' <= c <= '9' || c == ' ' || c == '_')
                    ==> c in allowed)
    && '~' !in allowed && '|' !in allowed && '\'' !in allowed
  }

  /** The request every case starts from, with the fields the cases vary. */
  function Request(servers: Option<seq<int>>, blockchain: string, nodes: int,
                   images: Option<seq<string>>, limit: string): DeploymentDetails
  {
    DeploymentDetails("123", servers, blockchain, nodes, images, [Resources(limit, limit)])
  }

  const Servers: Option<seq<int>> := Some([4, 5, 6])
  const GoodImages: Option<seq<string>> := Some(["d", "A", " "])
  const BadImages: Option<seq<string>> := Some(["~", "", "|"])

  lemma TildeError(allowed: set<char>)
    requires AgreesWithCases(allowed)
    ensures CheckCharset("~", allowed) == Fail("\"~\" contains invalid character '~'")
  {
    assert FirstOutside("~", allowed, 0);
    CharsetErrorAt("~", allowed, 0);
    TildeText();
  }

  lemma TildeText()
    ensures CharsetError("~", '~') == "\"~\" contains invalid character '~'"
  {
  }

  lemma SpaceIsNotAnInteger(allowed: set<char>)
    requires AgreesWithCases(allowed)
    ensures CheckResourceField(" ", allowed) == Fail("strconv.ParseInt: parsing \" \": invalid syntax")
  {
    assert CheckCharset(" ", allowed).Pass?;
    SpaceSyntaxError();
  }

  lemma SpaceSyntaxError()
    ensures ParseInt(" ") == SyntaxError
    ensures ParseIntError(" ", SyntaxError) == "strconv.ParseInt: parsing \" \": invalid syntax"
  {
    QuotePlain(" ");
    assert ParseInt(" ") == SyntaxError;
  }

  /** A request with a single node reports that node's error as node 0. */
  lemma SingleNode(d: DeploymentDetails, allowed: set<char>)
    requires |d.resources| == 1
    ensures CheckResources(d.resources[0], allowed).Pass? ==> ValidateResources(d, allowed) == Pass
    ensures CheckResources(d.resources[0], allowed).Fail? ==>
              ValidateResources(d, allowed)
              == Fail(CheckResources(d.resources[0], allowed).message + ". For node 0")
  {
    assert NatToString(0) == "0";
  }

  /** Cases of Test_validateResources. */
  lemma ResourcesCases(allowed: set<char>)
    requires AgreesWithCases(allowed)
    ensures ValidateResources(Request(Servers, "eos", 100, Some([]), "~"), allowed)
            == Fail("\"~\" contains invalid character '~'. For node 0")
    ensures ValidateResources(Request(Servers, "eos", 100, Some([]), ""), allowed) == Pass
  {
    var bad := Request(Servers, "eos", 100, Some([]), "~");
    TildeError(allowed);
    assert CheckResources(bad.resources[0], allowed) == Fail("\"~\" contains invalid character '~'");
    SingleNode(bad, allowed);
    SingleNode(Request(Servers, "eos", 100, Some([]), ""), allowed);
  }


  /** Cases of Test_validateNumOfNodes: the count is checked alone, so the unparsable
      resource strings do not matter. */
  lemma NumOfNodesCases()
    ensures ValidateNumOfNodes(Request(Servers, "eos", 100, Some([]), " ")) == Pass
    ensures ValidateNumOfNodes(Request(Servers, "eos", 1000, Some([]), " "))
            == Fail("too many nodes: max of 200 nodes")
    ensures ValidateNumOfNodes(Request(Servers, "eos", 0, Some([]), " "))
            == Fail("must have at least 1 node")
  {
  }

  /** Cases of Test_validateImages: only the first offending image is named. */
  lemma ImagesCases(allowed: set<char>)
    requires AgreesWithCases(allowed)
    ensures ValidateImages(Request(Servers, "eos", 100, GoodImages, " "), allowed) == Pass
    ensures ValidateImages(Request(Servers, "eos", 100, BadImages, " "), allowed)
            == Fail("\"~\" contains invalid character '~'")
  {
    TildeError(allowed);
    var good := GoodImages.value;
    assert CheckCharset(good[0], allowed).Pass? && CheckCharset(good[1], allowed).Pass?
           && CheckCharset(good[2], allowed).Pass?;
  }

  /** The apostrophe is the first disallowed character of the bad protocol name: everything
      before it, underscores included, is allowed. The expected text is written in pieces,
      the offending character being the middle `'`. */
  lemma BadNameError(allowed: set<char>, name: string)
    requires AgreesWithCases(allowed) && name == "test_blockchain_doesn't~exist"
    ensures CheckCharset(name, allowed)
            == Fail("\"" + "test_blockchain_doesn't~exist" + "\" contains invalid character '" + "'" + "'")
  {
    assert name[21] == '\'';
    forall j | 0 <= j < 21 ensures name[j] in allowed {
      assert 'a' <= name[j] <= 'z' || name[j] == '_';
    }
    assert FirstOutside(name, allowed, 21);
    CharsetErrorAt(name, allowed, 21);
  }

  /** Cases of Test_validateBlockchain: the images are not looked at. */
  lemma BlockchainCases(allowed: set<char>, name: string)
    requires AgreesWithCases(allowed) && name == "test_blockchain_doesn't~exist"
    ensures ValidateBlockchain(Request(Servers, "eos", 100, GoodImages, " "), allowed) == Pass
    ensures ValidateBlockchain(Request(Servers, "geth", 100, BadImages, " "), allowed) == Pass
    ensures ValidateBlockchain(Request(Servers, name, 100, BadImages, " "), allowed)
            == Fail("\"" + "test_blockchain_doesn't~exist" + "\" contains invalid character '" + "'" + "'")
  {
    BadNameError(allowed, name);
    assert CheckCharset("eos", allowed).Pass?;
    assert CheckCharset("geth", allowed).Pass?;
  }

  /** Cases of Test_checkForNilOrMissing. */
  lemma PresenceCases()
    ensures CheckForNilOrMissing(Request(None, "eos", 100, GoodImages, " "))
            == Fail("servers cannot be null")
    ensures CheckForNilOrMissing(Request(Some([]), "geth", 100, BadImages, " "))
            == Fail("servers cannot be empty")
    ensures CheckForNilOrMissing(Request(Servers, "", 100, BadImages, " "))
            == Fail("blockchain cannot be empty")
    ensures CheckForNilOrMissing(Request(Servers, "eos", 100, None, " "))
            == Fail("images cannot be null")
    ensures CheckForNilOrMissing(Request(Servers, "eos", 100, Some([]), " "))
            == Fail("images cannot be empty")
    ensures CheckForNilOrMissing(Request(Servers, "eos", 100, Some(["test", "blah"]), " ")) == Pass
  {
  }

  /** Cases of Test_validate: the resource error is reported although the images and the
      protocol name are bad as well. */
  lemma ValidateCases(allowed: set<char>, name: string)
    requires AgreesWithCases(allowed) && name == "test_blockchain_doesn't~exist"
    ensures Validate(Request(None, "eos", 100, GoodImages, " "), allowed) == Fail("servers cannot be null")
    ensures Validate(Request(Some([]), "geth", 100, Some(["1"]), " "), allowed)
            == Fail("servers cannot be empty")
    ensures Validate(Request(Servers, name, 100, BadImages, " "), allowed)
            == Fail("strconv.ParseInt: parsing \" \": invalid syntax. For node 0")
  {
    SpaceIsNotAnInteger(allowed);
    SingleNode(Request(Servers, name, 100, BadImages, " "), allowed);
  }
}
