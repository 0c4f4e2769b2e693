# Octokit code generator: the API builder pipeline

This project models the `ApiBuilder` of the Octokit code generator. The
generator turns one path of the GitHub REST description (a `PathMetadata`:
the path text and its verbs, each with its parameters) into an
`ApiBuilderResult`, which holds a class name, an interface name and one
client method per verb.

The builder is an ordered list of stages. Each stage is a function
`(PathMetadata, ApiBuilderResult) -> ApiBuilderResult`. `Register` appends a
stage. `Build(metadata)` starts from an empty result, runs every registered
stage in order with the same metadata, and returns what the last stage
produced. The generator ships two stages:

- `AddTypeNames` splits the path on `/`. It drops the empty segments and the
  `{placeholder}` segments, rewrites each remaining snake_case segment in
  PascalCase, and concatenates them to form the class name. The interface
  name is `I` followed by the class name.
- `AddMethodForEachVerb` appends one method per verb, in verb order. The
  method names are `Get` for GET, `Delete` for DELETE and `GetOrCreate` for
  PUT. Each path parameter is carried over with its name rewritten in
  lowerCamelCase; its type is kept.

Layout:

- `records.dfy` (module `Records`) holds the data records.
- `casing.dfy` (module `Casing`) holds splitting and joining on a separator,
  and snake_case to PascalCase and lowerCamelCase. Each conversion is proved
  equal to a word-by-word reference definition. For well-formed snake_case
  names, each is proved to round-trip back to snake_case.
- `api_builder.dfy` (module `ApiBuilding`) holds the `ApiBuilder` class and
  its two stages, with the lemmas about class names, method names and
  parameters.
- `path_processor.dfy` (module `PathProcessing`) builds the metadata from a
  path key and its verbs.
- `scenarios.dfy` (module `ApiBuilderScenarios`) holds the builder's test
  cases. Each is a method that builds a fresh `ApiBuilder`, registers the
  test's stages, runs `Build`, and states the test's assertions as
  postconditions.
- `wrappers.dfy` (module `Wrappers`) holds `Option`.

## Model

| member | source | states |
|---|---|---|
| `ApiBuilding.ApiBuilder.constructor` | test/Octokit.CodeGen.Tests/ApiBuilderTests.cs:18-21 | A new builder has no stages registered. |
| `ApiBuilding.ApiBuilder.Register` | test/Octokit.CodeGen.Tests/ApiBuilderTests.cs:34 | The stage is appended after the stages already registered; the earlier ones are kept, in order. |
| `ApiBuilding.ApiBuilder.Build` | test/Octokit.CodeGen.Tests/ApiBuilderTests.cs:34-36 | The loop's result is the left fold of the registered stages over the empty result: each stage receives the same metadata and the previous stage's output. |
| `ApiBuilding.FoldAppend` | test/Octokit.CodeGen.Tests/ApiBuilderTests.cs:34-36 | Running two stage lists one after the other equals running their concatenation. |
| `ApiBuilding.FoldSnoc` | test/Octokit.CodeGen.Tests/ApiBuilderTests.cs:34-36 | Registering one more stage applies it to the result of all earlier stages. |
| `ApiBuilding.FoldSingle` | test/Octokit.CodeGen.Tests/ApiBuilderTests.cs:34-36 | A builder with a single stage returns that stage applied to the empty result. |
| `ApiBuilderScenarios.RegisterSettingPropertyIsInvoked` | test/Octokit.CodeGen.Tests/ApiBuilderTests.cs:24-38 | A registered stage is run: the interface name it sets, `Monkey`, is in the result. |
| `ApiBuilderScenarios.RegisterUsingPropertyFromInputDoesPassInMetadata` | test/Octokit.CodeGen.Tests/ApiBuilderTests.cs:42-59 | The stage receives Build's metadata: copying its path gives the interface name `some-path`. |
| `ApiBuilding.ApiBuilder.AddTypeNames` | test/Octokit.CodeGen.Tests/ApiBuilderTests.cs:86-91 | The class name is the class name of the path; the interface name is `I` followed by it; the methods are untouched. |
| `ApiBuilding.Literals` | test/Octokit.CodeGen.Tests/ApiBuilderTests.cs:86-90 | A segment is kept exactly when it is in the input and is neither empty nor a `{placeholder}`; nothing is added. |
| `ApiBuilding.LiteralsAppend` | test/Octokit.CodeGen.Tests/ApiBuilderTests.cs:86-90 | The segment filter keeps path order: filtering a concatenation concatenates the filtered parts. |
| `ApiBuilding.PascalJoinAppend` | test/Octokit.CodeGen.Tests/ApiBuilderTests.cs:90 | The PascalCase words of a concatenation of segment lists concatenate in order. |
| `ApiBuilding.ClassName` | test/Octokit.CodeGen.Tests/ApiBuilderTests.cs:90 | A class name never contains an underscore. |
| `ApiBuilding.ClassNameOfSegments` | test/Octokit.CodeGen.Tests/ApiBuilderTests.cs:86-90 | For a path joined from `/`-free segments, the class name is the PascalCase of its literal segments, concatenated in path order. |
| `ApiBuilding.ClassNameAppend` | test/Octokit.CodeGen.Tests/ApiBuilderTests.cs:86-90 | The class name of `a/b` is the class name of `a` followed by that of `b`. |
| `ApiBuilding.ClassNameOfLiteral` | test/Octokit.CodeGen.Tests/ApiBuilderTests.cs:86-90 | A single literal segment contributes its PascalCase form. |
| `ApiBuilding.ClassNameOfSkipped` | test/Octokit.CodeGen.Tests/ApiBuilderTests.cs:86-90 | An empty or `{placeholder}` segment contributes nothing. |
| `ApiBuilding.ClassNameIgnoresPlaceholder` | test/Octokit.CodeGen.Tests/ApiBuilderTests.cs:86-90 | A leading `/` and a trailing `/{name}` segment do not change the class name. |
| `ApiBuilding.AddTypeNamesIdempotent` | test/Octokit.CodeGen.Tests/ApiBuilderTests.cs:86-91 | Running the naming stage twice gives the same result as running it once. |
| `ApiBuilding.AddTypeNamesIgnoresEarlierNames` | test/Octokit.CodeGen.Tests/ApiBuilderTests.cs:86-91 | The class and interface names the naming stage sets depend only on the metadata, not on what earlier stages produced. |
| `ApiBuilding.StagesCommute` | test/Octokit.CodeGen.Tests/ApiBuilderTests.cs:86-88 | The naming stage and the method stage touch disjoint fields, so their order does not matter. |
| `ApiBuilding.NamingThenMethods` | test/Octokit.CodeGen.Tests/ApiBuilderTests.cs:118-120 | Building with both stages gives the path's class and interface names and exactly one method per verb. |
| `ApiBuilderScenarios.MarketplaceClassName` | test/Octokit.CodeGen.Tests/ApiBuilderTests.cs:86-90 | The class name of `/marketplace_listing/accounts/{account_id}` is `MarketplaceListingAccounts`. |
| `ApiBuilderScenarios.RegisterWillFormatInterfaceAndTypeUsingPath` | test/Octokit.CodeGen.Tests/ApiBuilderTests.cs:63-91 | Building that path with the naming stage gives the class name `MarketplaceListingAccounts` and the interface name `IMarketplaceListingAccounts`. |
| `Casing.Split` | test/Octokit.CodeGen.Tests/ApiBuilderTests.cs:86-90 | Splitting gives at least one piece, and no piece contains the separator. |
| `Casing.JoinSplit` | test/Octokit.CodeGen.Tests/ApiBuilderTests.cs:86-90 | Joining the pieces of a split with the separator gives back the string. |
| `Casing.SplitJoin` | test/Octokit.CodeGen.Tests/ApiBuilderTests.cs:86-90 | Splitting a join of separator-free pieces gives back the pieces. |
| `Casing.SplitAppend` | test/Octokit.CodeGen.Tests/ApiBuilderTests.cs:86-90 | Splitting `a`, separator, `b` gives the pieces of `a` followed by the pieces of `b`. |
| `Casing.Capitalize` | test/Octokit.CodeGen.Tests/ApiBuilderTests.cs:90 | Capitalizing keeps the length, upper-cases the first letter and keeps the rest. |
| `Casing.ToLower` | test/Octokit.CodeGen.Tests/ApiBuilderTests.cs:90 | Lower-casing an upper-case letter gives a lower-case letter that upper-cases back to it; other characters are kept. |
| `Casing.SnakeToPascal` | test/Octokit.CodeGen.Tests/ApiBuilderTests.cs:90 | The PascalCase form has no underscore. |
| `Casing.SnakeToCamel` | test/Octokit.CodeGen.Tests/ApiBuilderTests.cs:128 | The lowerCamelCase form has no underscore. |
| `Casing.CamelizeAppend` | test/Octokit.CodeGen.Tests/ApiBuilderTests.cs:90 | The word after an underscore is converted on its own and capitalized. |
| `Casing.PascalAgreesWithWords` | test/Octokit.CodeGen.Tests/ApiBuilderTests.cs:90 | The PascalCase form equals the reference: split on `_`, capitalize every word, concatenate. |
| `Casing.CamelAgreesWithWords` | test/Octokit.CodeGen.Tests/ApiBuilderTests.cs:128 | The lowerCamelCase form equals the reference: the first word as is, each later word capitalized, concatenated. |
| `Casing.PascalIsCapitalizedCamel` | test/Octokit.CodeGen.Tests/ApiBuilderTests.cs:90 | The PascalCase form is the lowerCamelCase form with its first letter capitalized. |
| `Casing.CamelKeepsNameWithoutUnderscore` | test/Octokit.CodeGen.Tests/ApiBuilderTests.cs:146-147 | A name without an underscore, such as `username`, is unchanged by the lowerCamelCase rewrite. |
| `Casing.PascalOfTwoWords` | test/Octokit.CodeGen.Tests/ApiBuilderTests.cs:90 | `a_b` in PascalCase is `a` capitalized followed by `b` capitalized. |
| `Casing.CamelOfTwoWords` | test/Octokit.CodeGen.Tests/ApiBuilderTests.cs:128 | `a_b` in lowerCamelCase is `a` followed by `b` capitalized. |
| `Casing.CamelRoundTrip` | test/Octokit.CodeGen.Tests/ApiBuilderTests.cs:128 | For a well-formed snake_case name, converting the lowerCamelCase form back to snake_case gives the original name. |
| `Casing.PascalRoundTrip` | test/Octokit.CodeGen.Tests/ApiBuilderTests.cs:90 | For a well-formed snake_case segment, converting the PascalCase form back to snake_case gives the original segment. |
| `Casing.PascalInjective` | test/Octokit.CodeGen.Tests/ApiBuilderTests.cs:90 | Two different well-formed snake_case segments never share a PascalCase form. |
| `ApiBuilding.VerbName` | test/Octokit.CodeGen.Tests/ApiBuilderTests.cs:145-155 | GET, DELETE and PUT, and only they, are named `Get`, `Delete` and `GetOrCreate`. POST and PATCH have no name. |
| `ApiBuilding.Rename` | test/Octokit.CodeGen.Tests/ApiBuilderTests.cs:126-129 | The new name is the word-by-word lowerCamelCase of the old one (first word as is, later words capitalized) and has no underscore, so `account_id` becomes `accountId`. A snake_case name round-trips through the new name. A name without an underscore is kept. The location, the required flag and the type are kept. |
| `ApiBuilding.MethodParameters` | test/Octokit.CodeGen.Tests/ApiBuilderTests.cs:126-129 | Every path parameter is carried over, renamed. Every carried parameter is the rename of a path parameter of the verb (dropping the others is this model's choice; see "Left out"), and there are never more than the verb declares. Order is stated by `MethodParametersAppend`. |
| `ApiBuilding.MethodParametersAppend` | test/Octokit.CodeGen.Tests/ApiBuilderTests.cs:126-129 | The parameter filter keeps declaration order: the parameters of a concatenation are those of each part, in order. |
| `ApiBuilding.MethodParametersOfPathParameters` | test/Octokit.CodeGen.Tests/ApiBuilderTests.cs:126-129 | When all parameters are path parameters, the method has as many, in order, each with its name in lowerCamelCase and nothing else changed. |
| `ApiBuilding.MethodFor` | test/Octokit.CodeGen.Tests/ApiBuilderTests.cs:124 | The method's name is the verb's name. |
| `ApiBuilding.MethodsFor` | test/Octokit.CodeGen.Tests/ApiBuilderTests.cs:139-143 | One method per verb, in verb order, each generated from its own verb. |
| `ApiBuilding.MethodsForSharedParameters` | test/Octokit.CodeGen.Tests/ApiBuilderTests.cs:146-158 | Verbs that all take the same parameters give methods that all take the same renamed parameters. |
| `ApiBuilding.ApiBuilder.AddMethodForEachVerb` | test/Octokit.CodeGen.Tests/ApiBuilderTests.cs:118-129 | One method per verb is appended after the existing methods, which are kept. The class and interface names are untouched. |
| `ApiBuilding.NameCountIsVerbCount` | test/Octokit.CodeGen.Tests/ApiBuilderTests.cs:143-155 | A method name occurs exactly as often as its verb: no two verbs share a name, and nothing is merged or split. |
| `ApiBuilding.UnnamedMethods` | test/Octokit.CodeGen.Tests/ApiBuilderTests.cs:145-155 | A method has no name exactly when its verb is POST or PATCH. |
| `ApiBuilderScenarios.AccountIdInCamelCase` | test/Octokit.CodeGen.Tests/ApiBuilderTests.cs:126-128 | `account_id` in lowerCamelCase is `accountId`. |
| `ApiBuilderScenarios.RegisterWillAddMethodRepresentingGet` | test/Octokit.CodeGen.Tests/ApiBuilderTests.cs:95-129 | A single GET gives exactly one method, named `Get`. It has exactly one parameter, `accountId`, of type `number`. |
| `ApiBuilderScenarios.BuildForPathWithMultipleMethodsGeneratesResultingModel` | test/Octokit.CodeGen.Tests/ApiBuilderTests.cs:133-158 | GET, PUT and DELETE give exactly three methods. `Get`, `Delete` and `GetOrCreate` each occur once, and each method takes just `username` of type `string`. |
| `PathProcessing.Process` | test/Octokit.CodeGen.Tests/PathProcessorTests.cs:17-19 | The metadata's path is the path key, verbatim, and its verbs are the verbs given. |

## Left out

- Fixture loading (`LoadFixture`, `LoadPathWithGetPutAndDelete`) is embedded-resource I/O and asynchronous JSON parsing. The GET/PUT/DELETE fixture is supplied directly as data instead. Its path is taken to be `/users/{username}`, and its verbs to be in the order GET, PUT, DELETE. The method-stage test reads neither the path nor the order.
- The JSON traversal of `PathProcessor.Process` and its parsing of verb tokens are left out. `PathProcessing.Process` takes the path key and the already-parsed verbs. The `ApiBuilder` and `PathProcessor` implementation files are not part of this model; the behaviour follows the builder's tests.
- `DeploymentStatusClientTests.cs` covers a REST client over a mocked connection. It is network plumbing and is not part of this model.
- Method names for POST and PATCH are not specified anywhere. `VerbName` gives `None` for them rather than an invented name.
- MethodParameters: the program's handling of query and body parameters is unknown, since every parameter in the tests is a path parameter. This model drops non-path parameters by its own choice. The statement "every carried parameter is a path parameter" describes the model, not the program.
- A path whose segments are all placeholders gets the empty class name and the interface name `I`. No fallback name is specified.
- Whether a parameter is required, and pagination, are open questions in the tests. The `required` flag is carried unchanged and pagination is not modelled.
- `HttpMethod`, `List<T>` and `Task` are replaced by an enumeration, sequences and synchronous code.
- `ApiBuilderResult` is a value, and stages are pure functions that return a new result. A stage that mutates the `data` object it is given and returns it has the same effect on the result. `PathMetadata` is a value too, so a stage cannot change the metadata later stages see, as a C# stage setting its properties could. Aliasing between these objects and other references is not captured.
- The names of a fresh result are null in C#. Here they are the empty string. Likewise the null `Path` and `Verbs` of a default `PathMetadata` are modelled as the empty path and the empty verb list.
- Stages are total functions and cannot fail. A C# stage can throw, which aborts `Build` with no partial result; stage failure and that abort are not modelled.
- Casing covers ASCII letters only. Characters other than the letter after an underscore (or the first letter, for PascalCase) keep their case.
