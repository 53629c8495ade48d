/**
 * The generation-task enumeration and the response handler that carries one
 * LLM answer through evaluation (abstract prompt generator).
 */
module PromptGenerators {
  import opened Wrappers

  /** What a prompt asks the model to do. */
  datatype GenerationTask = InitializeSolution | FixErrors | FixErrorsFromError | OptimizePerformance {

    /** The enumeration member's value. */
    function Value(): (v: int)
      ensures 0 <= v <= 3
    {
      match this
      case InitializeSolution => 0
      case FixErrors => 1
      case FixErrorsFromError => 2
      case OptimizePerformance => 3
    }
  }

  /** `GenerationTask(v)`: the member with value `v`; Python raises ValueError (None here) for any other value. */
  function TaskOf(v: int): (t: Option<GenerationTask>)
    ensures t.Some? <==> 0 <= v <= 3
  {
    if v == 0 then Some(InitializeSolution)
    else if v == 1 then Some(FixErrors)
    else if v == 2 then Some(FixErrorsFromError)
    else if v == 3 then Some(OptimizePerformance)
    else None
  }

  /** Value lookup and member value are inverse, so the four values are distinct. */
  lemma TaskValueRoundTrip(t: GenerationTask, v: int)
    ensures TaskOf(t.Value()) == Some(t)
    ensures TaskOf(v).Some? ==> TaskOf(v).value.Value() == v
  {
  }

  lemma {:induction false} TaskValuesDistinct(a: GenerationTask, b: GenerationTask)
    ensures a.Value() == b.Value() ==> a == b
  {
    TaskValueRoundTrip(a, 0);
    TaskValueRoundTrip(b, 0);
  }

  /** The fields of an evaluator result that the handler looks at. */
  datatype EvaluatorResult = EvaluatorResult(score: real, error: Option<string>, errorType: Option<string>)

  /** One generated answer: the prompt, the response, the extracted code, and the evaluation outcome. */
  class ResponseHandler {
    var sysPrompt: string
    var prompt: string
    var rawResponse: string
    var llmModel: string
    var code: string
    var codeName: string
    var feedback: string
    var error: Option<string>
    var errorType: Option<string>
    var evalResultField: Option<EvaluatorResult>
    var parentIds: seq<string>
    var queryTime: real
    var promptTokenCount: int
    var responseTokenCount: int

    /** A fresh handler: empty texts, no error, no result, no parents, zero counters. */
    constructor ()
      ensures sysPrompt == "" && prompt == "" && rawResponse == "" && llmModel == ""
      ensures code == "" && codeName == "" && feedback == ""
      ensures error == None && errorType == None && evalResultField == None
      ensures parentIds == [] && queryTime == 0.0 && promptTokenCount == 0 && responseTokenCount == 0
    {
      sysPrompt, prompt, rawResponse, llmModel := "", "", "", "";
      code, codeName, feedback := "", "", "";
      error, errorType := None, None;
      evalResultField := None;
      parentIds := [];
      queryTime, promptTokenCount, responseTokenCount := 0.0, 0, 0;
    }

    /** The `eval_result` property. */
    function EvalResult(): Option<EvaluatorResult>
      reads this
    {
      evalResultField
    }

    /**
     * The `eval_result` setter: stores the result and, when the result carries
     * an error, copies its error and error type; otherwise the recorded error
     * stays as it was, so an error once recorded is never cleared.
     */
    method SetEvalResult(value: Option<EvaluatorResult>)
      modifies this`evalResultField, this`error, this`errorType
      ensures EvalResult() == value
      ensures error == ErrorAfter(old(error), value)
      ensures errorType == (if value.Some? && value.value.error.Some? then value.value.errorType else old(errorType))
      ensures old(error).Some? ==> error.Some?
    {
      if value.Some? && value.value.error.Some? {
        error := value.value.error;
        errorType := value.value.errorType;
      }
      evalResultField := value;
    }
  }

  /** The handler's error after one assignment of `value` to `eval_result`. */
  function ErrorAfter(error: Option<string>, value: Option<EvaluatorResult>): Option<string> {
    if value.Some? && value.value.error.Some? then value.value.error else error
  }

  /** The handler's error after a series of assignments. */
  function ErrorAfterAll(error: Option<string>, values: seq<Option<EvaluatorResult>>): Option<string>
    decreases |values|
  {
    if values == [] then error else ErrorAfterAll(ErrorAfter(error, values[0]), values[1..])
  }

  /**
   * Over any series of assignments the error ends up present exactly when it was
   * present before or some assigned result carried one: errors are sticky.
   */
  lemma {:induction false} ErrorSticky(error: Option<string>, values: seq<Option<EvaluatorResult>>)
    ensures ErrorAfterAll(error, values).Some? <==>
      (error.Some? || exists i :: 0 <= i < |values| && values[i].Some? && values[i].value.error.Some?)
    decreases |values|
  {
    if values != [] {
      ErrorSticky(ErrorAfter(error, values[0]), values[1..]);
      assert forall i :: 1 <= i < |values| ==> values[i] == values[1..][i - 1];
    }
  }
}
