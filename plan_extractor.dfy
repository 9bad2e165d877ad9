/**
 * The router's JSON plan extractor: reads a `CommandPlan` out of the JSON an
 * LLM returned. Parsing the text into a JSON value is foreign (serde_json)
 * and is a parameter.
 */
module PlanExtractor {
  import opened StrUtil
  import opened JsonValue
  import LlmTypes

  /** serde_json `as_f64`: any number. */
  function AsF64(v: Option<Value>): (r: Option<real>)
    ensures r.Some? <==> v.Some? && (v.value.Int? || v.value.Float?)
  {
    if v.None? then None
    else match v.value
      case Int(i) => Some(i as real)
      case Float(f) => Some(f)
      case _ => None
  }

  /** `parse_status`: a missing or non-string status is an error; unknown words are `Error`. */
  function ParseStatus(json: Value): (r: Result<LlmTypes.PlanStatus>)
    ensures r.Err? <==> AsStr(Get(json, "status")).None?
    ensures r.Err? ==> r.error == "Missing status field"
    ensures r.Ok? ==> (r.value == LlmTypes.PlanStatus.Ok <==> AsStr(Get(json, "status")).value == "ok")
    ensures r.Ok? ==> (r.value == LlmTypes.PlanStatus.Deny <==> AsStr(Get(json, "status")).value == "deny")
  {
    match AsStr(Get(json, "status"))
    case None => Err("Missing status field")
    case Some(s) =>
      if s == "ok" then Ok(LlmTypes.PlanStatus.Ok)
      else if s == "deny" then Ok(LlmTypes.PlanStatus.Deny)
      else Ok(LlmTypes.PlanStatus.Error)
  }

  /** `parse_confidence`: present only with both a numeric score and a string label. */
  function ParseConfidence(json: Value): (r: Option<LlmTypes.PlanConfidence>)
    ensures r.Some? <==> (Get(json, "confidence").Some?
                          && AsF64(Get(Get(json, "confidence").value, "score")).Some?
                          && AsStr(Get(Get(json, "confidence").value, "label")).Some?)
    ensures r.Some? ==> r.value.labelText == AsStr(Get(Get(json, "confidence").value, "label")).value
    ensures r.Some? ==> r.value.score == AsF64(Get(Get(json, "confidence").value, "score")).value
  {
    match Get(json, "confidence")
    case None => None
    case Some(c) =>
      match AsF64(Get(c, "score"))
      case None => None
      case Some(score) =>
        match AsStr(Get(c, "label"))
        case None => None
        case Some(l) => Some(LlmTypes.PlanConfidence(score, l))
  }

  /** One element of "steps": kept only when its "cmd" is a string. */
  function ParseStep(step: Value): (r: Option<LlmTypes.PlanStep>)
    ensures r.Some? <==> AsStr(Get(step, "cmd")).Some?
    ensures r.Some? ==> r.value.cmd == AsStr(Get(step, "cmd")).value
  {
    match AsStr(Get(step, "cmd"))
    case None => None
    case Some(cmd) =>
      Some(LlmTypes.PlanStep(cmd, AsStr(Get(step, "description")), AsStr(Get(step, "expected_output"))))
  }

  predicate Parses(step: Value)
  {
    ParseStep(step).Some?
  }

  /** `filter_map(parse step)`: the steps that parse, in order. */
  function ParseStepList(items: seq<Value>): (r: seq<LlmTypes.PlanStep>)
    ensures |r| <= |items|
    decreases |items|
  {
    if items == [] then []
    else match ParseStep(items[0])
      case None => ParseStepList(items[1..])
      case Some(step) => [step] + ParseStepList(items[1..])
  }

  /** No step survives exactly when no element has a string "cmd". */
  lemma {:induction false} StepListEmptyIff(items: seq<Value>)
    ensures ParseStepList(items) == [] <==> forall i :: 0 <= i < |items| ==> !Parses(items[i])
    decreases |items|
  {
    if items != [] {
      StepListEmptyIff(items[1..]);
      assert forall i :: 1 <= i < |items| ==> items[i] == items[1..][i - 1];
    }
  }

  /** Element `j` is the first that parses. */
  predicate FirstParsingAt(items: seq<Value>, j: nat)
  {
    j < |items| && Parses(items[j]) && forall i :: 0 <= i < j ==> !Parses(items[i])
  }

  /** The first surviving step is the first element that parses. */
  lemma {:induction false} FirstSurvivingStep(items: seq<Value>)
    requires ParseStepList(items) != []
    ensures exists j: nat :: FirstParsingAt(items, j) && ParseStepList(items)[0] == ParseStep(items[j]).value
    decreases |items|
  {
    if Parses(items[0]) {
      assert FirstParsingAt(items, 0);
    } else {
      FirstSurvivingStep(items[1..]);
      var j: nat :| FirstParsingAt(items[1..], j) && ParseStepList(items[1..])[0] == ParseStep(items[1..][j]).value;
      assert forall i :: 1 <= i <= j + 1 ==> items[i] == items[1..][i - 1];
      assert FirstParsingAt(items, j + 1);
    }
  }

  /** When every element parses, every one is kept, in place. */
  lemma {:induction false} AllStepsKept(items: seq<Value>)
    requires forall i :: 0 <= i < |items| ==> Parses(items[i])
    ensures |ParseStepList(items)| == |items|
    ensures forall i :: 0 <= i < |items| ==> ParseStep(items[i]) == Some(ParseStepList(items)[i])
    decreases |items|
  {
    if items != [] {
      AllStepsKept(items[1..]);
      assert forall i :: 1 <= i < |items| ==> items[i] == items[1..][i - 1];
    }
  }

  /** `parse_steps`: "steps" must be an array with at least one surviving step. */
  function ParseSteps(planObj: Value): (r: Option<seq<LlmTypes.PlanStep>>)
    ensures r.Some? ==> r.value != []
    ensures r.Some? ==> Get(planObj, "steps").Some? && Get(planObj, "steps").value.Arr?
    ensures r.Some? ==> r.value == ParseStepList(Get(planObj, "steps").value.items)
  {
    match Get(planObj, "steps")
    case None => None
    case Some(s) =>
      if !s.Arr? then None
      else
        var steps := ParseStepList(s.items);
        if steps == [] then None else Some(steps)
  }

  /** `parse_plan`: a "plan" object with steps; "cwd" and "explanation" when they are strings. */
  function ParsePlan(json: Value): (r: Option<LlmTypes.Plan>)
    ensures r.Some? ==> r.value.steps != []
    ensures r.Some? <==> Get(json, "plan").Some? && ParseSteps(Get(json, "plan").value).Some?
  {
    match Get(json, "plan")
    case None => None
    case Some(p) =>
      match ParseSteps(p)
      case None => None
      case Some(steps) => Some(LlmTypes.Plan(AsStr(Get(p, "cwd")), AsStr(Get(p, "explanation")), steps))
  }

  /**
   * `extract_plan`: text that is not JSON, or a missing status, is an error;
   * otherwise the plan keeps the text it came from.
   */
  function ExtractPlan(jsonStr: string, parse: string -> Result<Value>): (r: Result<LlmTypes.CommandPlan>)
    ensures parse(jsonStr).Err? ==> r == Err(parse(jsonStr).error)
    ensures parse(jsonStr).Ok? ==> (r.Err? <==> ParseStatus(parse(jsonStr).value).Err?)
    ensures r.Ok? ==> parse(jsonStr).Ok? && r.value.rawJson == jsonStr
    ensures r.Ok? ==> r.value.plan == ParsePlan(parse(jsonStr).value)
    ensures r.Ok? ==> r.value.status == ParseStatus(parse(jsonStr).value).value
    ensures r.Ok? ==> r.value.confidence == ParseConfidence(parse(jsonStr).value)
    ensures r.Ok? ==> r.value.reason == AsStr(Get(parse(jsonStr).value, "reason"))
  {
    match parse(jsonStr)
    case Err(e) => Err(e)
    case Ok(json) =>
      match ParseStatus(json)
      case Err(e) => Err(e)
      case Ok(status) => Ok(LlmTypes.CommandPlan(status, ParseConfidence(json), ParsePlan(json), AsStr(Get(json, "reason")), jsonStr))
  }

  /** `extract_first_command`: the first surviving step's command of the extracted plan. */
  function ExtractFirstCommand(jsonStr: string, parse: string -> Result<Value>): (r: Result<Option<string>>)
    ensures r.Err? <==> ExtractPlan(jsonStr, parse).Err?
    ensures r.Ok? ==> r.value == LlmTypes.FirstCommand(ExtractPlan(jsonStr, parse).value)
  {
    match ExtractPlan(jsonStr, parse)
    case Err(e) => Err(e)
    case Ok(plan) => Ok(LlmTypes.FirstCommand(plan))
  }

  /**
   * A first command exactly when a plan was read, and it is the "cmd" of the
   * first step element that has a string "cmd".
   */
  lemma FirstCommandOfFirstStep(jsonStr: string, parse: string -> Result<Value>)
    requires ExtractFirstCommand(jsonStr, parse).Ok?
    ensures ExtractFirstCommand(jsonStr, parse).value.Some? <==> ExtractPlan(jsonStr, parse).value.plan.Some?
    ensures ExtractFirstCommand(jsonStr, parse).value.Some? ==>
      var items := Get(Get(parse(jsonStr).value, "plan").value, "steps").value.items;
      exists j: nat :: FirstParsingAt(items, j)
        && ExtractFirstCommand(jsonStr, parse).value.value == AsStr(Get(items[j], "cmd")).value
  {
    var plan := ExtractPlan(jsonStr, parse).value;
    if plan.plan.Some? {
      var items := Get(Get(parse(jsonStr).value, "plan").value, "steps").value.items;
      FirstSurvivingStep(items);
    }
  }

  /** An extracted plan that is valid always has a command to run. */
  lemma ValidExtractedPlanHasCommand(jsonStr: string, parse: string -> Result<Value>)
    requires ExtractPlan(jsonStr, parse).Ok? && LlmTypes.IsValid(ExtractPlan(jsonStr, parse).value)
    ensures ExtractFirstCommand(jsonStr, parse).Ok? && ExtractFirstCommand(jsonStr, parse).value.Some?
  {
  }
}
