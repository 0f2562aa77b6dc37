/**
 * `orchestrator_agent`: at most ten steps of asking the task agent for a decision, recording it in
 * the task history, executing it and classifying the result; then the final answer, overwritten
 * with the last known state when the step budget is used up.
 */
module Orchestrator {
  import opened Wrappers
  import opened Strings
  import opened Json
  import opened TaskStore
  import Executor

  const MaxSteps: nat := 10
  const WindowSize: nat := 5

  // ------------------------------------------------------------ history view

  function Min(a: nat, b: nat): nat {
    if a <= b then a else b
  }

  function Reverse<T>(s: seq<T>): (r: seq<T>)
    ensures |r| == |s|
    ensures forall i :: 0 <= i < |s| ==> r[i] == s[|s| - 1 - i]
    decreases |s|
  {
    if s == [] then [] else Reverse(s[1..]) + [s[0]]
  }

  /** `iter().rev().take(n).rev()`: the last `n` entries, oldest first. */
  function Window<T>(h: seq<T>, n: nat): seq<T> {
    Reverse(Take(Reverse(h), n))
  }

  /** The window is the suffix of length `min(n, |h|)`, in the original order. */
  lemma WindowIsSuffix<T>(h: seq<T>, n: nat)
    ensures Window(h, n) == h[|h| - Min(n, |h|)..]
  {
    var m := Min(n, |h|);
    var w := Window(h, n);
    var t := Take(Reverse(h), n);
    assert |t| == m;
    forall i | 0 <= i < m ensures w[i] == h[|h| - m + i] {
      assert w[i] == t[m - 1 - i] == Reverse(h)[m - 1 - i];
    }
  }

  const NoHistory := "No previous actions taken."
  const HistoryHeader := "Task History (most recent last):\n"

  /** The history as shown to the task agent. */
  function HistoryView(h: seq<string>): (r: string)
    ensures h == [] ==> r == NoHistory
    ensures h != [] ==> StartsWith(r, HistoryHeader)
    ensures h != [] ==> r[|HistoryHeader|..] == Join("\n", h[|h| - Min(WindowSize, |h|)..])
  {
    if h == [] then NoHistory
    else
      WindowIsSuffix(h, WindowSize);
      var r := HistoryHeader + Join("\n", Window(h, WindowSize));
      assert r[..|HistoryHeader|] == HistoryHeader;
      r
  }

  // ------------------------------------------------------------------ prompt

  const PlanHeading := "Here is the high-level plan:\n"
  const UrlHeading := "\n\nHere is the current URL:\n"
  const HistoryHeading := "\n\nHere is the task history:\n"
  const Instruction := "\n\nBased on the high-level plan, the current URL, and the task history, determine the next action to take. If the plan is not perfect, you might have to change the plan based on the given page. Output your decision in the JSON format specified above."

  /** `gen_prompt`: the plan, the URL and the history, each under its heading, then the instruction. */
  function GenPrompt(plan: string, url: string, history: string): (r: string)
    ensures StartsWith(r, PlanHeading)
    ensures OccursAt(r, plan, |PlanHeading|)
    ensures OccursAt(r, UrlHeading, |PlanHeading| + |plan|)
    ensures OccursAt(r, url, |PlanHeading| + |plan| + |UrlHeading|)
    ensures OccursAt(r, HistoryHeading, |PlanHeading| + |plan| + |UrlHeading| + |url|)
    ensures OccursAt(r, history, |PlanHeading| + |plan| + |UrlHeading| + |url| + |HistoryHeading|)
    ensures OccursAt(r, Instruction, |PlanHeading| + |plan| + |UrlHeading| + |url| + |HistoryHeading| + |history|)
    ensures |r| == |PlanHeading| + |plan| + |UrlHeading| + |url| + |HistoryHeading| + |history| + |Instruction|
  {
    Layout(Headings(PlanHeading, UrlHeading, HistoryHeading, Instruction), plan, url, history)
  }

  /** The fixed texts of the prompt around the three inserted parts. */
  datatype Headings = Headings(plan: string, url: string, history: string, instruction: string)

  /** The three parts, each after its heading, then the instruction. */
  function Layout(t: Headings, plan: string, url: string, history: string): (r: string)
    ensures StartsWith(r, t.plan)
    ensures OccursAt(r, plan, |t.plan|)
    ensures OccursAt(r, t.url, |t.plan| + |plan|)
    ensures OccursAt(r, url, |t.plan| + |plan| + |t.url|)
    ensures OccursAt(r, t.history, |t.plan| + |plan| + |t.url| + |url|)
    ensures OccursAt(r, history, |t.plan| + |plan| + |t.url| + |url| + |t.history|)
    ensures OccursAt(r, t.instruction, |t.plan| + |plan| + |t.url| + |url| + |t.history| + |history|)
    ensures |r| == |t.plan| + |plan| + |t.url| + |url| + |t.history| + |history| + |t.instruction|
  {
    var a := t.plan + plan;
    var b := a + t.url + url;
    var c := b + t.history + history;
    var r := c + t.instruction;
    assert r[..|t.plan|] == t.plan;
    assert r[|t.plan|..|a|] == plan;
    assert r[|a|..|a| + |t.url|] == t.url;
    assert r[|a| + |t.url|..|b|] == url;
    assert r[|b|..|b| + |t.history|] == t.history;
    assert r[|b| + |t.history|..|c|] == history;
    assert r[|c|..] == t.instruction;
    r
  }

  // ---------------------------------------------------------- classification

  const FinalAnswerMarker := "FINAL_ANSWER:"
  const CompletedQuoted := "\"TASK_COMPLETE\""
  const ParsingJsonMarker := "ERROR_PARSING_JSON"

  /** How the loop reads an execution result. */
  datatype Verdict = Answered(answer: string) | Completed | Errored(notJson: bool) | Proceed

  function Classify(result: string): (v: Verdict)
    ensures v.Answered? <==> StartsWith(result, FinalAnswerMarker)
    ensures v.Answered? ==> v.answer == Trim(ReplaceAll(result, Executor.FinalAnswerPrefix, ""))
    ensures v.Completed? <==>
      (!StartsWith(result, FinalAnswerMarker) && Upper(result) in {Executor.TaskComplete, CompletedQuoted})
    ensures v.Errored? <==>
      (!StartsWith(result, FinalAnswerMarker) && Upper(result) !in {Executor.TaskComplete, CompletedQuoted}
       && Contains(Upper(result), "ERROR"))
    ensures v.Errored? ==> (v.notJson <==> Contains(result, ParsingJsonMarker))
  {
    if StartsWith(result, FinalAnswerMarker) then Answered(Trim(ReplaceAll(result, Executor.FinalAnswerPrefix, "")))
    else if Upper(result) == Executor.TaskComplete || Upper(result) == CompletedQuoted then Completed
    else if Contains(Upper(result), "ERROR") then Errored(Contains(result, ParsingJsonMarker))
    else Proceed
  }

  // -------------------------------------------------------------------- step

  /**
   * What the outside world answers at step `n`: the current URL, the task agent's reply to a
   * prompt, and the executor's result for a reply.
   */
  datatype World = World(
    url: nat -> Result<string, string>,
    agent: (nat, string) -> Result<string, string>,
    execute: (nat, string) -> Result<string, string>)

  const UnknownUrl := "Unknown (error getting URL)"

  function UrlText(u: Result<string, string>): string {
    match u
    case Success(s) => s
    case Failure(_) => UnknownUrl
  }

  function Add(s: Store, entry: string): Store {
    AddToHistory(s, entry).0
  }

  function LastOr(h: seq<string>, default: string): string {
    if h == [] then default else h[|h| - 1]
  }

  /** The `Step N: ` label of history entries. */
  function Tag(n: nat): string {
    "Step " + NatToString(n) + ": "
  }

  /** The task agent's input at step `n` for history `h`. */
  function AgentInput(plan: string, h: seq<string>, n: nat, w: World): string {
    GenPrompt(plan, UrlText(w.url(n)), HistoryView(h))
  }

  /** `b` is `a` followed by more entries. */
  predicate Extends(a: seq<string>, b: seq<string>) {
    |a| <= |b| && b[..|a|] == a
  }

  /** Adding to an initialised store extends it by the entry. */
  lemma AddExtends(h: seq<string>, e: string)
    ensures Add(Some(h), e) == Some(h + [e])
  {
  }

  // The history entries of step `n`.
  function Decided(n: nat, resp: string): string { Tag(n) + "Task Agent decided: " + resp }
  function AgentError(n: nat, e: string): string { Tag(n) + "Error from Task Agent: " + e }
  function UsingAction(n: nat, resp: string): string { Tag(n) + "Using planner's initial action: " + resp }
  function Executed(n: nat, result: string): string { Tag(n) + "Execution result: " + result }
  function CriticalEntry(n: nat, e: string): string { Tag(n) + "Critical error during execution: " + e }
  function NotJson(n: nat, resp: string): string { Tag(n) + "Agent response was not valid JSON. Previous response: " + resp }

  /**
   * The loop as its body sees it: the task agent asked at step `n` with the history read at the
   * start of the step, the executor, and the reading of execution results.
   */
  datatype Loop = Loop(
    ask: (nat, seq<string>) -> Result<string, string>,
    execute: (nat, string) -> Result<string, string>,
    classify: string -> Verdict)

  /** The loop of `orchestrator_agent`: the agent gets the prompt built from the plan, the URL and the history. */
  function LoopOf(plan: string, w: World): Loop {
    Loop((n: nat, h: seq<string>) => w.agent(n, AgentInput(plan, h, n, w)), w.execute, Classify)
  }

  /**
   * One pass of the loop body, from reading the history to classifying the result: the store
   * afterwards, and the final answer if the step ends the loop.
   */
  function Step(store: Store, n: nat, l: Loop): (Store, Option<string>) {
    var (s1, h) := GetHistory(store);
    match l.ask(n, h)
    case Failure(e) =>
      (Add(s1, AgentError(n, e)), Some("Error in task agent: " + e))
    case Success(resp) =>
      var s2 := Add(Add(s1, Decided(n, resp)), UsingAction(n, resp));
      match l.execute(n, resp)
      case Failure(e) =>
        (Add(s2, CriticalEntry(n, e)), Some("Critical error during execution: " + e))
      case Success(result) =>
        var s3 := Add(s2, Executed(n, result));
        match l.classify(result)
        case Answered(a) => (s3, Some(a))
        case Completed => (s3, Some(LastOr(GetHistory(s3).1, "Task completed.")))
        case Errored(notJson) => (if notJson then Add(s3, NotJson(n, resp)) else s3, None)
        case Proceed => (s3, None)
  }

  /** A failing task agent adds one entry and ends the loop with its error. */
  lemma StepAgentError(store: Store, n: nat, l: Loop)
    requires l.ask(n, GetHistory(store).1).Failure?
    ensures var h := GetHistory(store).1;
      var e := l.ask(n, h).error;
      Step(store, n, l) == (Some(h + [AgentError(n, e)]), Some("Error in task agent: " + e))
  {
  }

  /** A failing execution adds the decision, the action and the error, and ends the loop with the error. */
  lemma StepExecutionError(store: Store, n: nat, l: Loop, resp: string)
    requires l.ask(n, GetHistory(store).1) == Success(resp)
    requires l.execute(n, resp).Failure?
    ensures var h := GetHistory(store).1;
      var e := l.execute(n, resp).error;
      Step(store, n, l) ==
        (Some(h + [Decided(n, resp), UsingAction(n, resp), CriticalEntry(n, e)]),
         Some("Critical error during execution: " + e))
  {
    var h := GetHistory(store).1;
    assert h + [Decided(n, resp)] + [UsingAction(n, resp)] + [CriticalEntry(n, l.execute(n, resp).error)]
      == h + [Decided(n, resp), UsingAction(n, resp), CriticalEntry(n, l.execute(n, resp).error)];
  }

  /**
   * A completed execution adds the decision, the action and the result, in that order; the
   * classification of the result decides the rest. A completed task answers with this step's own
   * result entry, and only a result mentioning `ERROR_PARSING_JSON` adds a fourth entry.
   */
  lemma StepExecuted(store: Store, n: nat, l: Loop, resp: string, result: string)
    requires l.ask(n, GetHistory(store).1) == Success(resp)
    requires l.execute(n, resp) == Success(result)
    ensures var h := GetHistory(store).1;
      var entries := h + [Decided(n, resp), UsingAction(n, resp), Executed(n, result)];
      var r := Step(store, n, l);
      && (l.classify(result).Answered? ==> r == (Some(entries), Some(l.classify(result).answer)))
      && (l.classify(result).Completed? ==> r == (Some(entries), Some(Executed(n, result))))
      && (l.classify(result) == Errored(true) ==> r == (Some(entries + [NotJson(n, resp)]), None))
      && (l.classify(result) == Errored(false) ==> r == (Some(entries), None))
      && (l.classify(result).Proceed? ==> r == (Some(entries), None))
  {
    var h := GetHistory(store).1;
    var entries := h + [Decided(n, resp), UsingAction(n, resp), Executed(n, result)];
    assert GetHistory(store).0 == Some(h);
    assert h + [Decided(n, resp)] + [UsingAction(n, resp)] + [Executed(n, result)] == entries;
    var s3 := Add(Add(Add(Some(h), Decided(n, resp)), UsingAction(n, resp)), Executed(n, result));
    assert s3 == Some(entries);
    assert LastOr(GetHistory(s3).1, "Task completed.") == Executed(n, result);
  }

  /** Every step initialises the store if needed and appends between one and four entries to it. */
  lemma StepExtends(store: Store, n: nat, l: Loop)
    ensures var r := Step(store, n, l);
      && r.0.Some?
      && Extends(GetHistory(store).1, r.0.value)
      && 1 <= |r.0.value| - |GetHistory(store).1| <= 4
  {
    var h := GetHistory(store).1;
    match l.ask(n, h)
    case Failure(_) =>
      StepAgentError(store, n, l);
      AppendExtends(h, [AgentError(n, l.ask(n, h).error)]);
    case Success(resp) =>
      match l.execute(n, resp)
      case Failure(e) =>
        StepExecutionError(store, n, l, resp);
        AppendExtends(h, [Decided(n, resp), UsingAction(n, resp), CriticalEntry(n, e)]);
      case Success(result) => StepExecutedExtends(store, n, l, resp, result);
  }

  lemma StepExecutedExtends(store: Store, n: nat, l: Loop, resp: string, result: string)
    requires l.ask(n, GetHistory(store).1) == Success(resp)
    requires l.execute(n, resp) == Success(result)
    ensures var r := Step(store, n, l);
      && r.0.Some?
      && Extends(GetHistory(store).1, r.0.value)
      && 3 <= |r.0.value| - |GetHistory(store).1| <= 4
  {
    var h := GetHistory(store).1;
    StepExecuted(store, n, l, resp, result);
    var added := [Decided(n, resp), UsingAction(n, resp), Executed(n, result)];
    AppendExtends(h, added);
    AppendExtends(h, added + [NotJson(n, resp)]);
    assert h + added + [NotJson(n, resp)] == h + (added + [NotJson(n, resp)]);
  }

  lemma AppendExtends(h: seq<string>, added: seq<string>)
    ensures Extends(h, h + added) && |h + added| - |h| == |added|
  {
    assert (h + added)[..|h|] == h;
  }

  // --------------------------------------------------------------------- run

  /** Where the loop stopped: the store, the number of steps begun, and the answer set by a step. */
  datatype Run = Run(store: Store, steps: nat, ending: Option<string>)

  /** Reference definition of the loop: the steps from `done + 1` on, until one ends it or the budget runs out. */
  function RunFrom(store: Store, done: nat, l: Loop): (r: Run)
    requires done <= MaxSteps
    ensures done <= r.steps <= MaxSteps
    ensures done < MaxSteps ==> done < r.steps
    ensures r.ending.None? ==> r.steps == MaxSteps
    ensures done < MaxSteps ==> r.store.Some?
    decreases MaxSteps - done
  {
    if done == MaxSteps then Run(store, done, None)
    else
      StepExtends(store, done + 1, l);
      var (s, e) := Step(store, done + 1, l);
      if e.Some? then Run(s, done + 1, e) else RunFrom(s, done + 1, l)
  }

  const MaxStepsPrefix := "Reached max steps. Last known state: "

  /** The final answer: the ending of the last step, unless the budget was used up. */
  function FinalAnswer(r: Run): string
    requires r.ending.None? ==> r.steps >= MaxSteps
  {
    if r.steps >= MaxSteps then MaxStepsPrefix + LastOr(GetHistory(r.store).1, "N/A")
    else r.ending.value
  }

  /**
   * The loop of `orchestrator_agent` and the check after it. `initial` is the history store when
   * the loop starts; the answer, the number of steps begun and the store at the end are returned.
   */
  method Orchestrate(plan: string, initial: Store, w: World) returns (answer: string, steps: nat, store: Store)
    ensures var r := RunFrom(initial, 0, LoopOf(plan, w));
      && steps == r.steps
      && store == r.store
      && answer == FinalAnswer(r)
    ensures 1 <= steps <= MaxSteps
    ensures store.Some? && Extends(GetHistory(initial).1, store.value)
  {
    answer, steps, store := OrchestrateWith(initial, LoopOf(plan, w));
  }

  method OrchestrateWith(initial: Store, l: Loop)
    returns (answer: string, steps: nat, store: Store)
    ensures var r := RunFrom(initial, 0, l);
      && steps == r.steps
      && store == r.store
      && answer == FinalAnswer(r)
    ensures 1 <= steps <= MaxSteps
    ensures store.Some? && Extends(GetHistory(initial).1, store.value)
  {
    answer := "";
    steps := 0;
    store := initial;
    RunExtendsHistory(initial, 0, l);
    var ending: Option<string> := None;
    while steps < MaxSteps && ending.None?
      invariant steps <= MaxSteps
      invariant ending.None? ==> RunFrom(initial, 0, l) == RunFrom(store, steps, l)
      invariant ending.Some? ==> RunFrom(initial, 0, l) == Run(store, steps, ending) && answer == ending.value
      invariant steps > 0 ==> store.Some?
    {
      StepExtends(store, steps + 1, l);
      var next := Step(store, steps + 1, l);
      steps := steps + 1;
      store := next.0;
      if next.1.Some? {
        answer := next.1.value;
      }
      ending := next.1;
    }
    if steps >= MaxSteps {
      var (s, h) := GetHistory(store);
      store := s;
      answer := MaxStepsPrefix + LastOr(h, "N/A");
    }
  }

  // ------------------------------------------------------------------ facts

  /** History only grows: every entry present when the loop starts is still there, in place. */
  lemma {:induction false} RunExtendsHistory(store: Store, done: nat, l: Loop)
    requires done < MaxSteps
    ensures Extends(GetHistory(store).1, RunFrom(store, done, l).store.value)
    decreases MaxSteps - done
  {
    StepExtends(store, done + 1, l);
    var (s, e) := Step(store, done + 1, l);
    if e.None? && done + 1 < MaxSteps {
      RunExtendsHistory(s, done + 1, l);
      assert GetHistory(s).1 == s.value;
    }
  }

  /** Using up the budget overrides whatever the last step answered, including an answer given at step ten. */
  lemma BudgetOverridesAnswer(r: Run)
    requires r.steps == MaxSteps && r.store.Some?
    ensures FinalAnswer(r) == MaxStepsPrefix + LastOr(r.store.value, "N/A")
  {
  }

  /** The first step of a fresh store shows the agent that nothing has happened yet. */
  lemma FirstStepSeesNoHistory(plan: string, w: World)
    ensures LoopOf(plan, w).ask(1, GetHistory(None).1) == w.agent(1, GenPrompt(plan, UrlText(w.url(1)), NoHistory))
  {
    assert GetHistory(None).1 == [];
    assert AgentInput(plan, [], 1, w) == GenPrompt(plan, UrlText(w.url(1)), NoHistory);
  }

  /** An upper-case result that opens with "ERROR" reads as an error. */
  lemma ClassifyError(result: string)
    requires Upper(result) == result && StartsWith(result, "ERROR")
    ensures Classify(result) == Errored(Contains(result, ParsingJsonMarker))
  {
    assert result[0] == 'E';
    assert !StartsWith(result, FinalAnswerMarker) by { assert FinalAnswerMarker[0] == 'F'; }
    assert Upper(result) !in {Executor.TaskComplete, CompletedQuoted} by {
      assert Executor.TaskComplete[0] == 'T' && CompletedQuoted[0] == '"';
    }
    assert Contains(Upper(result), "ERROR");
  }

  /** An upper-case result without the letter R, other than the completion markers, lets the loop go on. */
  lemma ClassifyProceed(result: string)
    requires Upper(result) == result && 'R' !in result
    requires Upper(result) !in {Executor.TaskComplete, CompletedQuoted}
    ensures Classify(result) == Proceed
  {
    LetterMissing(result, FinalAnswerMarker, 'R');
    LetterMissing(result, "ERROR", 'R');
  }

  /** Bad JSON from the agent reads as an error that marks bad JSON. */
  lemma ClassifyParsingJson()
    ensures Classify(Executor.ParsingJson) == Errored(true)
  {
    var j := Executor.ParsingJson;
    assert j[0] != FinalAnswerMarker[0];
    assert Upper(j) == j;
    assert StartsWith(j, ParsingJsonMarker);
    ClassifyError(j);
  }

  /** A JSON reply without a usable action reads as an error that does not mark bad JSON. */
  lemma ClassifyParsingAction()
    ensures Classify(Executor.ParsingAction) == Errored(false)
  {
    UpperParsingAction();
    NoJsonMarkerInParsingAction();
    ParsingActionOpens();
    ClassifyError(Executor.ParsingAction);
  }

  lemma ParsingActionOpens()
    ensures StartsWith(Executor.ParsingAction, "ERROR") && !StartsWith(Executor.ParsingAction, FinalAnswerMarker)
  {
    assert Executor.ParsingAction[0] != FinalAnswerMarker[0];
  }

  lemma UpperParsingAction()
    ensures Upper(Executor.ParsingAction) == Executor.ParsingAction
  {
  }

  lemma NoJsonMarkerInParsingAction()
    ensures !Contains(Executor.ParsingAction, ParsingJsonMarker)
  {
    assert ParsingJsonMarker[14] == 'J';
    LetterMissing(Executor.ParsingAction, ParsingJsonMarker, 'J');
  }

  /** The executor's completion result ends the loop. */
  lemma ClassifyTaskComplete()
    ensures Classify(Executor.TaskComplete) == Completed
  {
    assert Executor.TaskComplete[0] != FinalAnswerMarker[0];
    assert Upper(Executor.TaskComplete) == Executor.TaskComplete;
  }

  /** `CONTINUE` lets the loop go on. */
  lemma ClassifyContinue()
    ensures Classify(Executor.Continue) == Proceed
  {
    var c := Executor.Continue;
    assert c[0] != FinalAnswerMarker[0];
    assert Upper(c) == c;
    ClassifyProceed(c);
  }

  /** `AGENT_DONE` is not a stop signal for the loop: it goes on. */
  lemma ClassifyAgentDone()
    ensures Classify(Executor.AgentDone) == Proceed
  {
    var d := Executor.AgentDone;
    assert d[0] != FinalAnswerMarker[0];
    assert Upper(d) == d;
    ClassifyProceed(d);
  }

  /** A final answer from the executor becomes the loop's answer, trimmed. */
  lemma ClassifyFinalAnswer(answer: string)
    requires !Contains(answer, Executor.FinalAnswerPrefix)
    ensures Classify(Executor.FinalAnswerPrefix + answer) == Answered(Trim(answer))
  {
    var p := Executor.FinalAnswerPrefix;
    assert (p + answer)[..|FinalAnswerMarker|] == FinalAnswerMarker;
    ReplaceLeading(p, answer, "");
    ReplaceAbsent(answer, p, "");
    assert "" + answer == answer;
  }

  /**
   * From the action text to the loop's verdict: a final-answer action makes the executor answer
   * `FINAL_ANSWER: <a>` without touching the browser, and the loop reads that as the answer `a`, trimmed.
   */
  lemma FinalAnswerEndsLoop(response: string, nextAction: string, parse: string -> Option<Json>,
                            b: Executor.Browser, reply: Json, answer: string)
    requires parse(response) == Some(reply) && Field(reply, "done") != Bool(true)
    requires parse(nextAction) == Some(Executor.FinalAnswerObject(answer))
    requires !Contains(answer, Executor.FinalAnswerPrefix)
    ensures Executor.ExecuteTask(response, nextAction, parse, b) == Success(Executor.FinalAnswerPrefix + answer)
    ensures Classify(Executor.ExecuteTask(response, nextAction, parse, b).value) == Answered(Trim(answer))
  {
    Executor.FinalAnswerDecided(reply, answer);
    ClassifyFinalAnswer(answer);
  }

  // ------------------------------------------------------------- the wiring

  /**
   * The world of the running program: the task agent is `task_agent` over the step's language
   * model, and the executor is `execute_task` with the step's action text, parser and browser.
   */
  function Wired(
    url: nat -> Result<string, string>,
    taskPrompt: string,
    models: nat -> (string -> Result<string, string>),
    actionTexts: nat -> string,
    parse: string -> Option<Json>,
    browsers: nat -> Executor.Browser): World
  {
    World(
      url,
      (n: nat, input: string) => TaskAgent(taskPrompt, input, models(n)),
      (n: nat, resp: string) => Executor.ExecuteTask(resp, actionTexts(n), parse, browsers(n)))
  }

  /** `task_agent` never fails, so the loop's task-agent error branch cannot be taken. */
  lemma AgentNeverFails(
    url: nat -> Result<string, string>,
    taskPrompt: string,
    models: nat -> (string -> Result<string, string>),
    actionTexts: nat -> string,
    parse: string -> Option<Json>,
    browsers: nat -> Executor.Browser,
    n: nat, input: string)
    ensures Wired(url, taskPrompt, models, actionTexts, parse, browsers).agent(n, input).Success?
  {
    assert Wired(url, taskPrompt, models, actionTexts, parse, browsers).agent(n, input)
      == TaskAgent(taskPrompt, input, models(n));
  }
}
