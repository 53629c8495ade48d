/**
 * The population's shared vocabulary: individuals as the population sees
 * them, the result-handler attachment in their metadata, pending query items,
 * and the names under which a population is saved.
 */
module Population {
  import opened Wrappers
  import opened Text
  import opened PromptGenerators

  type Id = string

  /** Source code, already split into lines. */
  type Lines = seq<string>

  /**
   * What the population reads through an attached result handler: an
   * immutable view of the fields of `PromptGenerators.ResponseHandler`
   * (code, description and evaluation result) at the time it is read.
   */
  datatype HandlerView = HandlerView(code: Lines, desc: string, evalResult: Option<EvaluatorResult>)

  /** A metadata value: a result handler or any other (textual) value. */
  datatype Meta = Str(text: string) | Handler(handler: HandlerView)

  /**
   * One generated candidate. `fitness` is None until it is evaluated;
   * `error` is present exactly when evaluation failed.
   */
  datatype Individual = Individual(
    id: Id,
    name: string,
    parentIds: seq<Id>,
    fitness: Option<real>,
    error: Option<string>,
    feedback: string,
    metadata: map<string, Meta>)

  /** A freshly created individual with the given (random) id and nothing else set. */
  function NewIndividual(id: Id): (ind: Individual)
    ensures ind.id == id && ind.parentIds == [] && ind.fitness == None && ind.error == None
    ensures ind.metadata == map[]
  {
    Individual(id, "", [], None, None, "", map[])
  }

  const HandlerKey: string := "res_handler"

  /** `get_handler_from_individual`: the "res_handler" entry, or None for no individual or no entry. */
  function GetHandlerFromIndividual(ind: Option<Individual>): (r: Option<Meta>)
    ensures r.Some? <==> ind.Some? && HandlerKey in ind.value.metadata
    ensures r.Some? ==> r.value == ind.value.metadata[HandlerKey]
  {
    if ind.Some? then
      if HandlerKey in ind.value.metadata then Some(ind.value.metadata[HandlerKey]) else None
    else None
  }

  /**
   * `set_handler_to_individual`: attaches the handler under "res_handler"; no
   * individual means nothing happens. Reading the handler back gives it, and
   * every other field and metadata entry is kept.
   */
  function SetHandlerToIndividual(ind: Option<Individual>, handler: Meta): (r: Option<Individual>)
    ensures r.Some? <==> ind.Some?
    ensures ind.Some? ==> GetHandlerFromIndividual(r) == Some(handler)
    ensures ind.Some? ==> r.value.(metadata := map[]) == ind.value.(metadata := map[])
    ensures ind.Some? ==> r.value.metadata.Keys == ind.value.metadata.Keys + {HandlerKey}
    ensures ind.Some? ==> forall k :: k in ind.value.metadata && k != HandlerKey ==>
      r.value.metadata[k] == ind.value.metadata[k]
  {
    if ind.Some? then Some(ind.value.(metadata := ind.value.metadata[HandlerKey := handler])) else None
  }

  /** A request to produce one offspring from the listed parents. */
  datatype QueryItem = QueryItem(
    qid: real,
    generation: Option<int>,
    isInitialized: bool,
    kind: Option<GenerationTask>,
    parent: seq<Individual>,
    offspring: Option<Individual>)

  /**
   * `PopulationQueryItem(qid, parent, offspring)`: without a qid the current
   * time `now` is used; the generation, type and initialised flag start unset.
   */
  function NewQueryItem(qid: Option<real>, now: real, parent: seq<Individual>, offspring: Option<Individual>): (q: QueryItem)
    ensures q.qid == qid.GetOr(now)
    ensures q.generation == None && q.kind == None && !q.isInitialized
    ensures q.parent == parent && q.offspring == offspring
  {
    QueryItem(if qid.Some? then qid.value else now, None, false, None, parent, offspring)
  }

  /** The run directory's name: `<ClassName>_<sanitised name>_<timestamp>`. */
  function SaveDirSuffix(className: string, popName: string, timestamp: string): (r: string)
    ensures className + "_" <= r
    ensures |r| >= |className| + 2 + |timestamp| && r[|r| - |timestamp| - 1..] == "_" + timestamp
    ensures r[|className| + 1..|r| - |timestamp| - 1] == SafeName(popName)
    ensures forall ch :: ch in r[|className| + 1..|r| - |timestamp| - 1] ==> !IsUnsafe(ch)
  {
    var r := className + "_" + SafeName(popName) + "_" + timestamp;
    assert r[|className| + 1..|r| - |timestamp| - 1] == SafeName(popName);
    SafeNameIsSafe(popName);
    r
  }

  /** `os.path.join(dirname, base)` for a relative `base`. */
  function PathJoin(dirname: string, base: string): string {
    if dirname == [] then base
    else if dirname[|dirname| - 1] == '/' then dirname + base
    else dirname + "/" + base
  }

  /** The part of the saved file's name between the class name and the timestamp. */
  function SaveNamePart(popName: string, dirname: string, filename: Option<string>, suffix: Option<string>): string {
    var safe := SafeName(if filename.Some? then filename.value else popName);
    var kept := if Contains(dirname, safe) then "" else safe;
    var full := if suffix.Some? then kept + suffix.value else kept;
    if |full| > 0 then "_" + full else full
  }

  /**
   * `Population.save`'s file path: `<dirname>/<ClassName>[_<name>]_<timestamp>.pkl`,
   * where the name is the sanitised file name (or population name), dropped when
   * the directory already contains it, followed by the suffix.
   */
  function SaveFilePath(className: string, popName: string, dirname: string,
                        filename: Option<string>, suffix: Option<string>, timestamp: string): (r: string)
    ensures dirname <= r
    ensures var base := className + SaveNamePart(popName, dirname, filename, suffix) + "_" + timestamp + ".pkl";
      && |r| >= |base| && r[|r| - |base|..] == base
      && (dirname == [] || dirname[|dirname| - 1] == '/' ==> |r| == |dirname| + |base|)
      && (dirname != [] && dirname[|dirname| - 1] != '/' ==> |r| == |dirname| + 1 + |base| && r[|dirname|] == '/')
  {
    PathJoin(dirname, className + SaveNamePart(popName, dirname, filename, suffix) + "_" + timestamp + ".pkl")
  }

  /**
   * The name part is empty or starts with '_'; without a suffix it holds no
   * space, ':' or '/'; and a name the directory already contains is left out.
   */
  lemma {:induction false} SaveNamePartShape(popName: string, dirname: string, filename: Option<string>, suffix: Option<string>)
    ensures var part := SaveNamePart(popName, dirname, filename, suffix);
      (part == "" || part[0] == '_') &&
      (suffix.None? ==> forall ch :: ch in part ==> !IsUnsafe(ch)) &&
      (suffix.None? && Contains(dirname, SafeName(if filename.Some? then filename.value else popName)) ==> part == "") &&
      (suffix.None? && !Contains(dirname, SafeName(if filename.Some? then filename.value else popName)) &&
         SafeName(if filename.Some? then filename.value else popName) != "" ==>
         part == "_" + SafeName(if filename.Some? then filename.value else popName))
  {
    SafeNameIsSafe(if filename.Some? then filename.value else popName);
  }
}
