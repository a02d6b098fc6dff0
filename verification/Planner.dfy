/** The planner's task plan and its in-place normalisation. */
module Planner {
  import opened Trimming

  const UNKNOWN := "UNKNOWN"
  const UNKNOWN_RISK := "unknown"

  datatype Step = Step(
    order: int,
    objective: string,
    actionType: string,
    inputs: seq<string>,
    outputs: seq<string>,
    dependencies: seq<string>,
    contextBudget: int,
    confidence: real,
    blocking: bool,
    risk: string,
    evidence: seq<string>,
    searchQueries: seq<string>)

  /** The fields normalisation reads or writes. */
  datatype PlanValue = PlanValue(
    objective: string,
    actionType: string,
    searchQueries: seq<string>,
    contextBudget: int,
    risk: string,
    steps: seq<Step>)

  /** The text operations of the language: upper case of a character, and white space. */
  datatype Text = Text(upper: char -> char, isSpace: char -> bool)

  function TrimSpace(t: Text, s: string): string {
    Trim(t.isSpace, s)
  }

  function ToUpper(t: Text, s: string): (r: string)
    ensures |r| == |s|
  {
    seq(|s|, i requires 0 <= i < |s| => t.upper(s[i]))
  }

  function NormalizeToken(t: Text, v: string): string {
    ToUpper(t, TrimSpace(t, v))
  }

  predicate Blank(t: Text, s: string) {
    TrimSpace(t, s) == ""
  }

  /** The queries of all steps, in step order. */
  function StepQueries(steps: seq<Step>): seq<string> {
    if steps == [] then [] else StepQueries(steps[..|steps| - 1]) + steps[|steps| - 1].searchQueries
  }

  predicate SomeOrdered(steps: seq<Step>) {
    exists i :: 0 <= i < |steps| && steps[i].order > 0
  }

  function Numbered(steps: seq<Step>): (r: seq<Step>)
    ensures |r| == |steps|
  {
    seq(|steps|, i requires 0 <= i < |steps| => steps[i].(order := i + 1))
  }

  function Queries(queries: seq<string>, steps: seq<Step>, prompt: string): seq<string> {
    if queries != [] then queries
    else if StepQueries(steps) != [] then StepQueries(steps)
    else [prompt]
  }

  function Orders(steps: seq<Step>): seq<Step> {
    if SomeOrdered(steps) then steps else Numbered(steps)
  }

  function Token(t: Text, v: string): string {
    if NormalizeToken(t, v) == "" then UNKNOWN else NormalizeToken(t, v)
  }

  function Normalized(t: Text, p: PlanValue, prompt: string): PlanValue {
    PlanValue(
      if Blank(t, p.objective) then prompt else p.objective,
      Token(t, p.actionType),
      Queries(p.searchQueries, p.steps, prompt),
      if p.contextBudget <= 0 then 1 else p.contextBudget,
      if Blank(t, p.risk) then UNKNOWN_RISK else p.risk,
      Orders(p.steps))
  }

  /** The plan made up when the planner returned none. */
  function Fallback(prompt: string): PlanValue {
    PlanValue(prompt, UNKNOWN, [prompt], 1, UNKNOWN_RISK, [])
  }

  class TaskPlan {
    var objective: string
    var actionType: string
    var inputs: seq<string>
    var outputs: seq<string>
    var dependencies: seq<string>
    var contextBudget: int
    var confidence: real
    var blocking: bool
    var risk: string
    var evidence: seq<string>
    var searchQueries: seq<string>
    var steps: array<Step>

    constructor Unplanned(prompt: string)
      ensures View() == Fallback(prompt) && blocking
      ensures steps.Length == 0
      ensures inputs == outputs == dependencies == evidence == [] && confidence == 0.0
      ensures fresh(steps)
    {
      objective, actionType, contextBudget, risk, searchQueries := prompt, UNKNOWN, 1, UNKNOWN_RISK, [prompt];
      inputs, outputs, dependencies, evidence, confidence, blocking := [], [], [], [], 0.0, true;
      steps := new Step[0](_ => Step(0, "", "", [], [], [], 0, 0.0, false, "", [], []));
    }

    ghost function View(): PlanValue
      reads this, steps
    {
      PlanValue(objective, actionType, searchQueries, contextBudget, risk, steps[..])
    }

    /** Fills in defaults in place; all other fields stay as they are. */
    method NormalizeInPlace(t: Text, prompt: string)
      modifies this`objective, this`actionType, this`searchQueries, this`contextBudget, this`risk, steps
      ensures View() == Normalized(t, old(View()), prompt)
    {
      ghost var given := steps[..];
      FillObjective(t, prompt);
      FillQueries(prompt);
      FillLimits(t);
      assert steps[..] == given;
      NumberSteps();
    }

    method FillObjective(t: Text, prompt: string)
      modifies this`objective, this`actionType
      ensures objective == if Blank(t, old(objective)) then prompt else old(objective)
      ensures actionType == Token(t, old(actionType))
    {
      if TrimSpace(t, objective) == "" {
        objective := prompt;
      }
      actionType := NormalizeToken(t, actionType);
      if actionType == "" {
        actionType := UNKNOWN;
      }
    }

    method FillLimits(t: Text)
      modifies this`contextBudget, this`risk
      ensures contextBudget == if old(contextBudget) <= 0 then 1 else old(contextBudget)
      ensures risk == if Blank(t, old(risk)) then UNKNOWN_RISK else old(risk)
    {
      if contextBudget <= 0 {
        contextBudget := 1;
      }
      if TrimSpace(t, risk) == "" {
        risk := UNKNOWN_RISK;
      }
    }

    /** Queries come from the plan, else from its steps, else from the prompt. */
    method FillQueries(prompt: string)
      modifies this`searchQueries
      ensures searchQueries == Queries(old(searchQueries), steps[..], prompt)
    {
      if |searchQueries| == 0 {
        CollectQueries();
      }
      if |searchQueries| == 0 {
        searchQueries := [prompt];
      }
    }

    /** Appends the queries of each step that has any. */
    method CollectQueries()
      modifies this`searchQueries
      ensures searchQueries == old(searchQueries) + StepQueries(steps[..])
    {
      for i := 0 to steps.Length
        invariant searchQueries == old(searchQueries) + StepQueries(steps[..i])
      {
        assert steps[..i + 1][..i] == steps[..i];
        if |steps[i].searchQueries| > 0 {
          searchQueries := searchQueries + steps[i].searchQueries;
        }
      }
      assert steps[..steps.Length] == steps[..];
    }

    /** Numbers the steps from 1 unless one of them already has a positive order. */
    method NumberSteps()
      modifies steps
      ensures steps[..] == Orders(old(steps[..]))
    {
      if steps.Length == 0 {
        return;
      }
      var orderMissing := true;
      for i := 0 to steps.Length
        invariant orderMissing && forall j :: 0 <= j < i ==> steps[j].order <= 0
      {
        if steps[i].order > 0 {
          orderMissing := false;
          assert steps[..][i].order > 0;
          break;
        }
      }
      if orderMissing {
        for i := 0 to steps.Length
          invariant forall j :: 0 <= j < i ==> steps[j] == old(steps[j]).(order := j + 1)
          invariant forall j :: i <= j < steps.Length ==> steps[j] == old(steps[j])
        {
          steps[i] := steps[i].(order := i + 1);
        }
      }
    }
  }

  /** The entry point: a missing plan is replaced by a blocking one, an existing one is normalised in
      place and keeps its other fields. */
  method Normalize(t: Text, p: TaskPlan?, prompt: string) returns (r: TaskPlan)
    modifies p, if p == null then {} else {p.steps}
    ensures p == null ==> fresh(r) && r.View() == Fallback(prompt) && r.blocking && r.confidence == 0.0
    ensures p == null ==> r.objective == prompt && r.actionType == "UNKNOWN" && r.risk == "unknown"
    ensures p == null ==> r.searchQueries == [prompt] && r.contextBudget == 1 && r.steps.Length == 0
    ensures p == null ==> r.inputs == r.outputs == r.dependencies == r.evidence == []
    ensures p != null ==> r == p && r.View() == Normalized(t, old(p.View()), prompt)
    ensures p != null ==> unchanged(p`inputs, p`outputs, p`dependencies, p`confidence, p`blocking, p`evidence, p`steps)
  {
    if p == null {
      r := new TaskPlan.Unplanned(prompt);
    } else {
      p.NormalizeInPlace(t, prompt);
      r := p;
    }
  }
}
