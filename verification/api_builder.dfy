/**
 * The builder pipeline: an ordered registry of stages, each a function
 * (PathMetadata, ApiBuilderResult) -> ApiBuilderResult, folded left to right
 * over a fresh result; and the two stages that derive the type names from the
 * path and one method per verb.
 */
module ApiBuilding {
  import opened Wrappers
  import opened Records
  import opened Casing

  /** A stage of the pipeline. */
  type Stage = (PathMetadata, ApiBuilderResult) -> ApiBuilderResult

  /**
   * Threads `acc` through `stages` from first to last, each stage receiving
   * the same metadata and the result of the stage before it.
   */
  function Fold(stages: seq<Stage>, metadata: PathMetadata, acc: ApiBuilderResult): ApiBuilderResult
    decreases |stages|
  {
    if stages == [] then acc else Fold(stages[1..], metadata, stages[0](metadata, acc))
  }

  /**
   * Running two registries one after the other is running their concatenation:
   * the later stages see exactly what the earlier ones produced.
   */
  lemma {:induction false} FoldAppend(first: seq<Stage>, second: seq<Stage>, metadata: PathMetadata, acc: ApiBuilderResult)
    ensures Fold(first + second, metadata, acc) == Fold(second, metadata, Fold(first, metadata, acc))
    decreases |first|
  {
    if first != [] {
      assert (first + second)[0] == first[0];
      assert (first + second)[1..] == first[1..] + second;
      FoldAppend(first[1..], second, metadata, first[0](metadata, acc));
    } else {
      assert first + second == second;
    }
  }

  /**
   * The last registered stage gets the result of all the earlier ones and has
   * the last word: whatever it writes is what the build returns.
   */
  lemma FoldSnoc(stages: seq<Stage>, last: Stage, metadata: PathMetadata, acc: ApiBuilderResult)
    ensures Fold(stages + [last], metadata, acc) == last(metadata, Fold(stages, metadata, acc))
  {
    FoldAppend(stages, [last], metadata, acc);
  }

  /** A registry of one stage runs that stage once on the starting result. */
  lemma FoldSingle(stage: Stage, metadata: PathMetadata, acc: ApiBuilderResult)
    ensures Fold([stage], metadata, acc) == stage(metadata, acc)
  {
    FoldSnoc([], stage, metadata, acc);
    assert [] + [stage] == [stage];
  }

  // ---------------------------------------------------------------------------
  // Naming stage helpers

  /** A `{name}` segment of a path: the slot of a path parameter. */
  predicate IsPlaceholder(segment: string)
  {
    |segment| >= 2 && segment[0] == '{' && segment[|segment| - 1] == '}'
  }

  /** A segment that contributes to the class name: neither empty nor a placeholder. */
  predicate IsLiteral(segment: string)
  {
    segment != "" && !IsPlaceholder(segment)
  }

  /** The literal segments of `segments`, in order. */
  function Literals(segments: seq<string>): (r: seq<string>)
    ensures forall x :: x in r <==> x in segments && IsLiteral(x)
    ensures |r| <= |segments|
  {
    if segments == [] then []
    else
      var rest := Literals(segments[1..]);
      if IsLiteral(segments[0]) then [segments[0]] + rest else rest
  }

  lemma {:induction false} LiteralsAppend(a: seq<string>, b: seq<string>)
    ensures Literals(a + b) == Literals(a) + Literals(b)
    decreases |a|
  {
    if a != [] {
      assert (a + b)[0] == a[0];
      assert (a + b)[1..] == a[1..] + b;
      LiteralsAppend(a[1..], b);
    } else {
      assert a + b == b;
    }
  }

  /** The PascalCase forms of `words`, concatenated in order. */
  function PascalJoin(words: seq<string>): (r: string)
    ensures '_' !in r
  {
    if words == [] then "" else SnakeToPascal(words[0]) + PascalJoin(words[1..])
  }

  lemma PascalJoinOfTwo(a: string, b: string)
    ensures PascalJoin([a, b]) == SnakeToPascal(a) + SnakeToPascal(b)
  {
    assert [a, b][1..] == [b];
    assert [b][1..] == [];
    assert PascalJoin([b]) == SnakeToPascal(b) + PascalJoin([]);
    assert SnakeToPascal(b) + "" == SnakeToPascal(b);
  }

  lemma {:induction false} PascalJoinAppend(a: seq<string>, b: seq<string>)
    ensures PascalJoin(a + b) == PascalJoin(a) + PascalJoin(b)
    decreases |a|
  {
    if a != [] {
      assert (a + b)[0] == a[0];
      assert (a + b)[1..] == a[1..] + b;
      PascalJoinAppend(a[1..], b);
    } else {
      assert a + b == b;
    }
  }

  /** The class name of a path: its literal segments in PascalCase, in path order. */
  function ClassName(path: string): (r: string)
    ensures '_' !in r
  {
    PascalJoin(Literals(Split(path, '/')))
  }

  /** The class name of a path is the class names of its two halves around a '/'. */
  lemma ClassNameAppend(a: string, b: string)
    ensures ClassName(a + "/" + b) == ClassName(a) + ClassName(b)
  {
    SplitAppend(a, b, '/');
    LiteralsAppend(Split(a, '/'), Split(b, '/'));
    PascalJoinAppend(Literals(Split(a, '/')), Literals(Split(b, '/')));
  }

  /** A path given segment by segment is named after its literal segments. */
  lemma ClassNameOfSegments(segments: seq<string>)
    requires |segments| >= 1
    requires forall i :: 0 <= i < |segments| ==> '/' !in segments[i]
    ensures ClassName(Join(segments, '/')) == PascalJoin(Literals(segments))
  {
    SplitJoin(segments, '/');
  }

  /** A single literal segment contributes its PascalCase form. */
  lemma ClassNameOfLiteral(segment: string)
    requires '/' !in segment && IsLiteral(segment)
    ensures ClassName(segment) == SnakeToPascal(segment)
  {
    SplitWithoutSeparator(segment, '/');
    assert [segment][1..] == [];
    assert Literals([segment]) == [segment];
    assert PascalJoin([segment]) == SnakeToPascal(segment) + PascalJoin([]);
  }

  /** An empty or placeholder segment contributes nothing. */
  lemma ClassNameOfSkipped(segment: string)
    requires '/' !in segment && !IsLiteral(segment)
    ensures ClassName(segment) == ""
  {
    SplitWithoutSeparator(segment, '/');
  }

  /** Leading slashes and trailing placeholder segments do not change the class name. */
  lemma ClassNameIgnoresPlaceholder(path: string, name: string)
    requires '/' !in name
    ensures ClassName("/" + path) == ClassName(path)
    ensures ClassName(path + "/{" + name + "}") == ClassName(path)
  {
    ClassNameAppend("", path);
    assert "" + "/" + path == "/" + path;
    ClassNameOfSkipped("");
    var placeholder := "{" + name + "}";
    assert placeholder[0] == '{' && placeholder[|placeholder| - 1] == '}';
    assert '/' !in placeholder by {
      assert placeholder == ['{'] + name + ['}'];
    }
    ClassNameAppend(path, placeholder);
    assert path + "/" + placeholder == path + "/{" + name + "}";
    ClassNameOfSkipped(placeholder);
  }

  // ---------------------------------------------------------------------------
  // Method stage helpers

  /**
   * The method name of each verb. PUT is an idempotent create-or-fetch and is
   * named GetOrCreate; POST and PATCH have no name.
   */
  function VerbName(verb: HttpMethod): (name: Option<string>)
    ensures name.Some? <==> verb != Post && verb != Patch
    ensures verb == Get <==> name == Some("Get")
    ensures verb == Delete <==> name == Some("Delete")
    ensures verb == Put <==> name == Some("GetOrCreate")
  {
    match verb
    case Get => Some("Get")
    case Delete => Some("Delete")
    case Put => Some("GetOrCreate")
    case Post => None
    case Patch => None
  }

  /** A path parameter with its name in lowerCamelCase, everything else kept. */
  function Rename(p: Parameter): (q: Parameter)
    ensures q.location == p.location && q.required == p.required && q.typeName == p.typeName
    ensures q.name == CamelByWords(p.name) && '_' !in q.name
    ensures IsSnakeCase(p.name) ==> CamelToSnake(q.name) == p.name
    ensures '_' !in p.name ==> q == p
  {
    CamelFacts(p.name);
    p.(name := SnakeToCamel(p.name))
  }

  lemma CamelFacts(s: string)
    ensures SnakeToCamel(s) == CamelByWords(s)
    ensures '_' !in s ==> SnakeToCamel(s) == s
    ensures IsSnakeCase(s) ==> CamelToSnake(SnakeToCamel(s)) == s
  {
    CamelAgreesWithWords(s);
    if '_' !in s {
      CamelKeepsNameWithoutUnderscore(s);
    }
    if IsSnakeCase(s) {
      CamelRoundTrip(s);
    }
  }

  /** The path parameters of `ps`, renamed, in declaration order. */
  function MethodParameters(ps: seq<Parameter>): (r: seq<Parameter>)
    ensures |r| <= |ps|
    ensures forall q :: q in r ==> exists p :: p in ps && p.location == PathLocation && q == Rename(p)
    ensures forall p :: p in ps && p.location == PathLocation ==> Rename(p) in r
  {
    if ps == [] then []
    else
      var rest := MethodParameters(ps[1..]);
      if ps[0].location == PathLocation then [Rename(ps[0])] + rest else rest
  }

  /** When every parameter is a path parameter, each one is kept, renamed, in place. */
  lemma {:induction false} MethodParametersOfPathParameters(ps: seq<Parameter>)
    requires forall i :: 0 <= i < |ps| ==> ps[i].location == PathLocation
    ensures |MethodParameters(ps)| == |ps|
    ensures forall i :: 0 <= i < |ps| ==> MethodParameters(ps)[i] == ps[i].(name := SnakeToCamel(ps[i].name))
  {
    if ps != [] {
      MethodParametersOfPathParameters(ps[1..]);
      assert MethodParameters(ps) == [Rename(ps[0])] + MethodParameters(ps[1..]);
    }
  }

  /** The parameter filter keeps declaration order: it distributes over concatenation. */
  lemma {:induction false} MethodParametersAppend(a: seq<Parameter>, b: seq<Parameter>)
    ensures MethodParameters(a + b) == MethodParameters(a) + MethodParameters(b)
    decreases |a|
  {
    if a != [] {
      assert (a + b)[0] == a[0];
      assert (a + b)[1..] == a[1..] + b;
      MethodParametersAppend(a[1..], b);
    } else {
      assert a + b == b;
    }
  }

  /** In this model, query, body and other non-path parameters contribute nothing to the method. */
  lemma {:induction false} MethodParametersOfOtherParameters(ps: seq<Parameter>)
    requires forall i :: 0 <= i < |ps| ==> ps[i].location != PathLocation
    ensures MethodParameters(ps) == []
  {
    if ps != [] {
      MethodParametersOfOtherParameters(ps[1..]);
    }
  }

  /** The method generated for one verb. */
  function MethodFor(v: VerbResult): (m: MethodResult)
    ensures m.name == VerbName(v.verb)
  {
    MethodResult(VerbName(v.verb), MethodParameters(v.parameters))
  }

  /** One method per verb, in verb order. */
  function MethodsFor(verbs: seq<VerbResult>): (ms: seq<MethodResult>)
    ensures |ms| == |verbs|
    ensures forall i :: 0 <= i < |verbs| ==> ms[i] == MethodFor(verbs[i])
  {
    seq(|verbs|, i requires 0 <= i < |verbs| => MethodFor(verbs[i]))
  }

  /** Verbs that all take the same parameters give methods that all take the same renamed parameters. */
  lemma MethodsForSharedParameters(verbs: seq<VerbResult>, ps: seq<Parameter>)
    requires forall i :: 0 <= i < |verbs| ==> verbs[i].parameters == ps
    ensures forall i :: 0 <= i < |verbs| ==> MethodsFor(verbs)[i].parameters == MethodParameters(ps)
  {
  }

  /** How many of `ms` carry the name `name`. */
  function NameCount(ms: seq<MethodResult>, name: string): nat
  {
    if ms == [] then 0
    else (if ms[0].name == Some(name) then 1 else 0) + NameCount(ms[1..], name)
  }

  /** How many of `verbs` are the HTTP verb `verb`. */
  function VerbCount(verbs: seq<VerbResult>, verb: HttpMethod): nat
  {
    if verbs == [] then 0
    else (if verbs[0].verb == verb then 1 else 0) + VerbCount(verbs[1..], verb)
  }

  /**
   * A method name occurs as often as the verb it stands for: no two verbs
   * share a name, and no verb is merged or split.
   */
  lemma {:induction false} NameCountIsVerbCount(verbs: seq<VerbResult>, verb: HttpMethod)
    requires VerbName(verb).Some?
    ensures NameCount(MethodsFor(verbs), VerbName(verb).value) == VerbCount(verbs, verb)
    decreases |verbs|
  {
    if verbs != [] {
      NameCountIsVerbCount(verbs[1..], verb);
      assert MethodsFor(verbs)[1..] == MethodsFor(verbs[1..]);
    }
  }

  /** Unnamed methods are exactly those of POST and PATCH verbs. */
  lemma UnnamedMethods(verbs: seq<VerbResult>, i: nat)
    requires i < |verbs|
    ensures MethodsFor(verbs)[i].name.None? <==> verbs[i].verb in {Post, Patch}
  {
  }

  // ---------------------------------------------------------------------------
  // The builder

  /** An ordered, append-only registry of stages. */
  class ApiBuilder {
    var stages: seq<Stage>

    constructor ()
      ensures stages == []
    {
      stages := [];
    }

    /** Appends `stage`; registering the same stage twice runs it twice. */
    method Register(stage: Stage)
      modifies this
      ensures stages == old(stages) + [stage]
    {
      stages := stages + [stage];
    }

    /** Runs every registered stage, in order, on a fresh result. */
    method Build(metadata: PathMetadata) returns (result: ApiBuilderResult)
      ensures result == Fold(stages, metadata, EmptyResult)
    {
      result := EmptyResult;
      var i := 0;
      while i < |stages|
        invariant 0 <= i <= |stages|
        invariant result == Fold(stages[..i], metadata, EmptyResult)
      {
        FoldSnoc(stages[..i], stages[i], metadata, EmptyResult);
        assert stages[..i + 1] == stages[..i] + [stages[i]];
        result := stages[i](metadata, result);
        i := i + 1;
      }
      assert stages[..i] == stages;
    }

    /**
     * The naming stage: the class name from the literal segments of the path,
     * the interface name from the class name; the methods are untouched.
     */
    static function AddTypeNames(metadata: PathMetadata, data: ApiBuilderResult): (r: ApiBuilderResult)
      ensures r.className == ClassName(metadata.path)
      ensures r.interfaceName == "I" + r.className
      ensures r.methods == data.methods
    {
      var name := ClassName(metadata.path);
      data.(className := name, interfaceName := "I" + name)
    }

    /**
     * The method stage: appends one method per verb, in verb order, after the
     * methods already there; the names are untouched.
     */
    static function AddMethodForEachVerb(metadata: PathMetadata, data: ApiBuilderResult): (r: ApiBuilderResult)
      ensures |r.methods| == |data.methods| + |metadata.verbs|
      ensures r.methods[..|data.methods|] == data.methods
      ensures forall i :: 0 <= i < |metadata.verbs| ==>
                r.methods[|data.methods| + i] == MethodFor(metadata.verbs[i])
      ensures r.className == data.className && r.interfaceName == data.interfaceName
    {
      data.(methods := data.methods + MethodsFor(metadata.verbs))
    }
  }

  /** The naming stage gives the same names whatever ran before it. */
  lemma AddTypeNamesIgnoresEarlierNames(metadata: PathMetadata, first: ApiBuilderResult, second: ApiBuilderResult)
    ensures ApiBuilder.AddTypeNames(metadata, first).className == ApiBuilder.AddTypeNames(metadata, second).className
    ensures ApiBuilder.AddTypeNames(metadata, first).interfaceName == ApiBuilder.AddTypeNames(metadata, second).interfaceName
  {
  }

  /** Running the naming stage a second time changes nothing. */
  lemma AddTypeNamesIdempotent(metadata: PathMetadata, data: ApiBuilderResult)
    ensures ApiBuilder.AddTypeNames(metadata, ApiBuilder.AddTypeNames(metadata, data))
            == ApiBuilder.AddTypeNames(metadata, data)
  {
  }

  /** The two stages write disjoint fields, so their registration order does not matter. */
  lemma StagesCommute(metadata: PathMetadata, data: ApiBuilderResult)
    ensures ApiBuilder.AddTypeNames(metadata, ApiBuilder.AddMethodForEachVerb(metadata, data))
            == ApiBuilder.AddMethodForEachVerb(metadata, ApiBuilder.AddTypeNames(metadata, data))
  {
  }

  /** The whole pipeline with both stages registered, from a fresh result. */
  lemma NamingThenMethods(metadata: PathMetadata)
    ensures var r := Fold([ApiBuilder.AddTypeNames, ApiBuilder.AddMethodForEachVerb], metadata, EmptyResult);
            r.className == ClassName(metadata.path)
            && r.interfaceName == "I" + ClassName(metadata.path)
            && r.methods == MethodsFor(metadata.verbs)
  {
    var stages: seq<Stage> := [ApiBuilder.AddTypeNames, ApiBuilder.AddMethodForEachVerb];
    assert stages == [ApiBuilder.AddTypeNames] + [ApiBuilder.AddMethodForEachVerb];
    FoldSnoc([ApiBuilder.AddTypeNames], ApiBuilder.AddMethodForEachVerb, metadata, EmptyResult);
  }
}
