/**
 * The command plan an LLM router returns: a status, an optional confidence,
 * an optional plan of shell steps and an optional reason, plus the JSON it
 * was read from.
 */
module LlmTypes {
  import opened StrUtil

  datatype PlanStatus = Ok | Deny | Error

  /** The score is an `f32` in the program; here it is a real number. */
  datatype PlanConfidence = PlanConfidence(score: real, labelText: string)

  datatype PlanStep = PlanStep(cmd: string, description: Option<string>, expectedOutput: Option<string>)

  datatype Plan = Plan(cwd: Option<string>, explanation: Option<string>, steps: seq<PlanStep>)

  datatype CommandPlan = CommandPlan(
    status: PlanStatus,
    confidence: Option<PlanConfidence>,
    plan: Option<Plan>,
    reason: Option<string>,
    rawJson: string)

  /** `is_valid`: an accepted status and a plan. */
  function IsValid(c: CommandPlan): (r: bool)
    ensures r <==> c.status == PlanStatus.Ok && c.plan.Some?
    ensures r ==> (FirstCommand(c).Some? <==> |AllCommands(c)| > 0)
  {
    c.status == PlanStatus.Ok && c.plan.Some?
  }

  /** `get_all_commands`: every step's command in step order; nothing without a plan. */
  function AllCommands(c: CommandPlan): (r: seq<string>)
    ensures c.plan.None? ==> r == []
    ensures c.plan.Some? ==> |r| == |c.plan.value.steps|
    ensures c.plan.Some? ==> forall i :: 0 <= i < |r| ==> r[i] == c.plan.value.steps[i].cmd
  {
    if c.plan.None? then []
    else seq(|c.plan.value.steps|, i requires 0 <= i < |c.plan.value.steps| => c.plan.value.steps[i].cmd)
  }

  /** `get_first_command`: the first step's command, if there is a plan with a step. */
  function FirstCommand(c: CommandPlan): (r: Option<string>)
    ensures r.Some? <==> c.plan.Some? && c.plan.value.steps != []
  {
    if c.plan.Some? && c.plan.value.steps != [] then Some(c.plan.value.steps[0].cmd) else None
  }

  /** The first command is the head of all commands. */
  lemma FirstCommandIsHead(c: CommandPlan)
    ensures FirstCommand(c) == if AllCommands(c) == [] then None else Some(AllCommands(c)[0])
  {
    if c.plan.Some? && c.plan.value.steps != [] {
      assert AllCommands(c)[0] == c.plan.value.steps[0].cmd;
    }
  }

  /** A valid plan whose steps are not empty has a first command. */
  lemma ValidPlanHasCommand(c: CommandPlan)
    requires IsValid(c) && c.plan.value.steps != []
    ensures FirstCommand(c).Some? && |AllCommands(c)| > 0
  {
  }
}
