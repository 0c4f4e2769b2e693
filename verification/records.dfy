/**
 * The passive records shared by every stage of the code-generation pipeline:
 * what one path of the API description looks like on the way in (PathMetadata, with its
 * verbs and their parameters) and the description of a client resource that
 * comes out (ApiBuilderResult, with its methods).
 */
module Records {
  import opened Wrappers

  /** The HTTP verbs a path of the API description may declare. */
  datatype HttpMethod = Get | Post | Put | Patch | Delete

  /**
   * One declared parameter: its identifier as written in the API description
   * (for instance `account_id`), where it is carried (`path`, `query`, `body`),
   * whether it is required, and its semantic type tag (`string`, `number`, ...).
   */
  datatype Parameter = Parameter(name: string, location: string, required: bool, typeName: string)

  /** The location tag of a parameter carried in a path segment. */
  const PathLocation: string := "path"

  /** One verb declared on a path, with its parameters in declaration order. */
  datatype VerbResult = VerbResult(verb: HttpMethod, parameters: seq<Parameter>)

  /** One path of the API description: the literal path string and its verbs in declaration order. */
  datatype PathMetadata = PathMetadata(path: string, verbs: seq<VerbResult>)

  /**
   * One generated client method. The name is `None` for a verb whose method
   * name is not defined (see ApiBuilding.VerbName).
   */
  datatype MethodResult = MethodResult(name: Option<string>, parameters: seq<Parameter>)

  /** The accumulated description of one client resource. */
  datatype ApiBuilderResult = ApiBuilderResult(className: string, interfaceName: string, methods: seq<MethodResult>)

  /** The fresh result every build starts from: no names yet, no methods. */
  const EmptyResult: ApiBuilderResult := ApiBuilderResult("", "", [])
}
