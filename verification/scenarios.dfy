/**
 * The behaviours the builder's tests pin down, each as a client of the
 * builder: a fresh ApiBuilder, the stages the test registers, one Build, and
 * what the test asserts of the result as postconditions.
 */
module ApiBuilderScenarios {
  import opened Wrappers
  import opened Records
  import opened Casing
  import opened ApiBuilding
  import PathProcessing

  /** The path of the naming tests. */
  const MarketplacePath: string := "/marketplace_listing/accounts/{account_id}"

  /** The path of the naming tests, written segment by segment. */
  lemma MarketplacePathPieces()
    ensures "/" + "marketplace_listing" + "/" + "accounts" + "/" + "{account_id}" == MarketplacePath
  {
    RootedListingText();
    AccountsPathText();
    MarketplacePathHalves();
  }

  lemma RootedListingText()
    ensures "/" + "marketplace_listing" == "/marketplace_listing"
  {
  }

  lemma AccountsPathText()
    ensures "/" + "accounts" + "/" + "{account_id}" == "/accounts/{account_id}"
  {
  }

  lemma MarketplacePathHalves()
    ensures "/marketplace_listing" + "/accounts/{account_id}" == MarketplacePath
  {
  }

  /** The segments of the marketplace listing path. */
  const MarketplaceSegments: seq<string> := ["", "marketplace_listing", "accounts", "{account_id}"]

  /** A path with an empty leading segment joins to a leading separator. */
  lemma JoinRooted(b: string, c: string, d: string, sep: char)
    ensures Join(["", b, c, d], sep) == [sep] + b + [sep] + c + [sep] + d
  {
    var parts := ["", b, c, d];
    assert parts[1..] == [b, c, d];
    assert parts[1..][1..] == [c, d];
    assert parts[1..][1..][1..] == [d];
    var cd := c + [sep] + d;
    assert Join([c, d], sep) == cd;
    var bcd := b + [sep] + cd;
    assert Join([b, c, d], sep) == bcd;
    assert Join(parts, sep) == "" + [sep] + bcd;
    assert "" + [sep] + bcd == [sep] + b + [sep] + c + [sep] + d;
  }

  lemma MarketplaceSegmentsJoined()
    ensures Join(MarketplaceSegments, '/') == MarketplacePath
    ensures forall i :: 0 <= i < |MarketplaceSegments| ==> '/' !in MarketplaceSegments[i]
  {
    JoinRooted("marketplace_listing", "accounts", "{account_id}", '/');
    MarketplacePathPieces();
  }

  lemma MarketplaceListingInPascalCase()
    ensures SnakeToPascal("marketplace_listing") == "MarketplaceListing"
  {
    MarketplaceListingText();
    PascalOfTwoWords("marketplace", "listing");
    MarketplaceCapitalized();
    ListingCapitalized();
    MarketplaceListingPascalText();
  }

  lemma MarketplaceListingText()
    ensures "marketplace" + "_" + "listing" == "marketplace_listing"
  {
  }

  lemma MarketplaceCapitalized()
    ensures Capitalize("marketplace") == "Marketplace"
  {
  }

  lemma ListingCapitalized()
    ensures Capitalize("listing") == "Listing"
  {
  }

  lemma MarketplaceListingPascalText()
    ensures "Marketplace" + "Listing" == "MarketplaceListing"
  {
  }

  lemma AccountsInPascalCase()
    ensures SnakeToPascal("accounts") == "Accounts"
  {
    PascalOfWord("accounts");
    AccountsCapitalized();
  }

  lemma AccountsCapitalized()
    ensures Capitalize("accounts") == "Accounts"
  {
  }

  lemma MarketplaceLiterals()
    ensures Literals(MarketplaceSegments) == ["marketplace_listing", "accounts"]
  {
    var segments := MarketplaceSegments;
    assert IsLiteral("marketplace_listing") && IsLiteral("accounts");
    assert IsPlaceholder("{account_id}");
    assert segments[1..] == ["marketplace_listing", "accounts", "{account_id}"];
    assert segments[2..] == ["accounts", "{account_id}"];
    assert segments[3..] == ["{account_id}"];
  }

  lemma MarketplaceListingAccountsText()
    ensures "MarketplaceListing" + "Accounts" == "MarketplaceListingAccounts"
  {
  }

  lemma MarketplaceWordsInPascalCase()
    ensures PascalJoin(["marketplace_listing", "accounts"]) == "MarketplaceListingAccounts"
  {
    MarketplaceListingAccountsText();
    MarketplaceListingInPascalCase();
    AccountsInPascalCase();
    PascalJoinOfTwo("marketplace_listing", "accounts");
  }

  /**
   * The class name of `/marketplace_listing/accounts/{account_id}`: the empty
   * leading segment and the placeholder are dropped, the other two segments
   * are rewritten in PascalCase and concatenated in path order.
   */
  lemma MarketplaceClassName()
    ensures ClassName(MarketplacePath) == "MarketplaceListingAccounts"
  {
    MarketplaceSegmentsJoined();
    ClassNameOfSegments(MarketplaceSegments);
    MarketplaceLiterals();
    MarketplaceWordsInPascalCase();
  }

  /** A stage that sets the interface name is run, and its write is visible. */
  method RegisterSettingPropertyIsInvoked() returns (result: ApiBuilderResult)
    ensures result.interfaceName == "Monkey"
  {
    var metadata := PathMetadata("", []);
    var addInterfaceName: Stage := (path: PathMetadata, data: ApiBuilderResult) => data.(interfaceName := "Monkey");
    var apiBuilder := new ApiBuilder();
    apiBuilder.Register(addInterfaceName);
    result := apiBuilder.Build(metadata);
    FoldSingle(addInterfaceName, metadata, EmptyResult);
  }

  /** Every stage receives the metadata given to Build. */
  method RegisterUsingPropertyFromInputDoesPassInMetadata() returns (result: ApiBuilderResult)
    ensures result.interfaceName == "some-path"
  {
    var metadata := PathMetadata("some-path", []);
    var addInterfaceName: Stage := (metadata: PathMetadata, data: ApiBuilderResult) => data.(interfaceName := metadata.path);
    var apiBuilder := new ApiBuilder();
    apiBuilder.Register(addInterfaceName);
    result := apiBuilder.Build(metadata);
    FoldSingle(addInterfaceName, metadata, EmptyResult);
  }

  /** The marketplace listing path with a single GET taking the path parameter `account_id`. */
  const MarketplaceGet: PathMetadata :=
    PathMetadata(MarketplacePath, [VerbResult(Get, [Parameter("account_id", PathLocation, true, "number")])])

  lemma MarketplaceInterfaceText()
    ensures "I" + "MarketplaceListingAccounts" == "IMarketplaceListingAccounts"
  {
  }

  /** The naming stage derives the class and interface names from the path. */
  method RegisterWillFormatInterfaceAndTypeUsingPath() returns (result: ApiBuilderResult)
    ensures result.className == "MarketplaceListingAccounts"
    ensures result.interfaceName == "IMarketplaceListingAccounts"
  {
    var apiBuilder := new ApiBuilder();
    apiBuilder.Register(ApiBuilder.AddTypeNames);
    result := apiBuilder.Build(MarketplaceGet);
    FoldSingle(ApiBuilder.AddTypeNames, MarketplaceGet, EmptyResult);
    MarketplaceClassName();
    MarketplaceInterfaceText();
  }

  /** `account_id` in lowerCamelCase. */
  lemma AccountIdInCamelCase()
    ensures SnakeToCamel("account_id") == "accountId"
  {
    assert "account" + "_" + "id" == "account_id";
    CamelOfTwoWords("account", "id");
    assert Capitalize("id") == "Id";
    assert "account" + "Id" == "accountId";
  }

  /** A single GET becomes a single method named Get with its path parameter renamed. */
  method RegisterWillAddMethodRepresentingGet() returns (result: ApiBuilderResult)
    ensures |result.methods| == 1
    ensures result.methods[0].name == Some("Get")
    ensures |result.methods[0].parameters| == 1
    ensures result.methods[0].parameters[0].name == "accountId"
    ensures result.methods[0].parameters[0].typeName == "number"
  {
    var apiBuilder := new ApiBuilder();
    apiBuilder.Register(ApiBuilder.AddMethodForEachVerb);
    result := apiBuilder.Build(MarketplaceGet);
    FoldSingle(ApiBuilder.AddMethodForEachVerb, MarketplaceGet, EmptyResult);
    var ps := MarketplaceGet.verbs[0].parameters;
    MethodParametersOfPathParameters(ps);
    AccountIdInCamelCase();
  }

  /** The `username` path parameter shared by the GET, PUT and DELETE verbs. */
  const Username: Parameter := Parameter("username", PathLocation, true, "string")

  /** The verbs of the users path: GET, PUT and DELETE, each taking `username`. */
  const GetPutDelete: seq<VerbResult> :=
    [VerbResult(Get, [Username]), VerbResult(Put, [Username]), VerbResult(Delete, [Username])]

  lemma GetPutDeleteCounts()
    ensures VerbCount(GetPutDelete, Get) == 1
    ensures VerbCount(GetPutDelete, Put) == 1
    ensures VerbCount(GetPutDelete, Delete) == 1
  {
    var verbs := GetPutDelete;
    assert verbs[1..] == [VerbResult(Put, [Username]), VerbResult(Delete, [Username])];
    assert verbs[1..][1..] == [VerbResult(Delete, [Username])];
    assert verbs[1..][1..][1..] == [];
    var last := verbs[1..][1..];
    assert VerbCount(last, Get) == 0 && VerbCount(last, Put) == 0 && VerbCount(last, Delete) == 1;
    assert VerbCount(verbs[1..], Get) == 0 && VerbCount(verbs[1..], Put) == 1;
  }

  /** `username` has no underscore, so it passes through the rename unchanged. */
  lemma UsernameKept()
    ensures MethodParameters([Username]) == [Username]
  {
    assert '_' !in Username.name;
    MethodParametersOfPathParameters([Username]);
  }

  /** GET, PUT and DELETE each give exactly one method, each with the `username` parameter. */
  method BuildForPathWithMultipleMethodsGeneratesResultingModel() returns (result: ApiBuilderResult)
    ensures |result.methods| == 3
    ensures NameCount(result.methods, "Get") == 1
    ensures NameCount(result.methods, "Delete") == 1
    ensures NameCount(result.methods, "GetOrCreate") == 1
    ensures forall i :: 0 <= i < |result.methods| ==> result.methods[i].parameters == [Username]
  {
    var metadata := PathProcessing.Process("/users/{username}", GetPutDelete);
    var apiBuilder := new ApiBuilder();
    apiBuilder.Register(ApiBuilder.AddMethodForEachVerb);
    result := apiBuilder.Build(metadata);
    FoldSingle(ApiBuilder.AddMethodForEachVerb, metadata, EmptyResult);
    assert result.methods == MethodsFor(GetPutDelete);
    GetPutDeleteNames();
    GetPutDeleteParameters();
  }

  lemma GetPutDeleteNames()
    ensures NameCount(MethodsFor(GetPutDelete), "Get") == 1
    ensures NameCount(MethodsFor(GetPutDelete), "Delete") == 1
    ensures NameCount(MethodsFor(GetPutDelete), "GetOrCreate") == 1
  {
    NameCountIsVerbCount(GetPutDelete, Get);
    NameCountIsVerbCount(GetPutDelete, Delete);
    NameCountIsVerbCount(GetPutDelete, Put);
    GetPutDeleteCounts();
  }

  lemma GetPutDeleteTakeUsername()
    ensures forall i :: 0 <= i < |GetPutDelete| ==> GetPutDelete[i].parameters == [Username]
  {
  }

  lemma GetPutDeleteParameters()
    ensures |MethodsFor(GetPutDelete)| == 3
    ensures forall i :: 0 <= i < |MethodsFor(GetPutDelete)| ==> MethodsFor(GetPutDelete)[i].parameters == [Username]
  {
    GetPutDeleteTakeUsername();
    MethodsForSharedParameters(GetPutDelete, [Username]);
    UsernameKept();
  }
}
