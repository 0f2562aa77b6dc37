/**
 * `execute_task`: reads the agent's reply and the next-action text as JSON and turns them into
 * one result string and at most one browser effect, chosen by probing the action object's keys
 * in a fixed order.
 */
module Executor {
  import opened Wrappers
  import opened Strings
  import opened Json
  import opened Actions

  const ParsingJson := "ERROR_PARSING_JSON"
  const ParsingAction := "ERROR_PARSING_ACTION"
  const TaskComplete := "TASK_COMPLETE"
  const AgentDone := "AGENT_DONE"
  const Continue := "CONTINUE"
  const FinalAnswerPrefix := "FINAL_ANSWER: "

  /** The browser work an action asks for. */
  datatype Effect =
    | Search(term: string)
    | Navigate(url: string)
    | ExtractPage
    | Click(selector: string)
    | Fill(fields: seq<FormField>)
    | Back
    | FillCredentials(selectors: seq<string>)
    | Create(filename: string, content: string, format: string)
    | Generate(taskDescription: string, filename: string, format: string)

  /** The result string and the effect, if any, that precedes it. */
  datatype Decision = Decision(effect: Option<Effect>, result: string)

  /** The actions the executor recognises, one per key of the action object. */
  datatype Action =
    | SearchQuery | GoToUrl | ExtractContentAction | ClickElement | FillFormAction | FinalAnswer
    | GoBack | FillCredentialsAction | CreateDocumentAction | GenerateDocumentAction | Done | Stop

  function KeyOf(a: Action): string {
    match a
    case SearchQuery => "search_query"
    case GoToUrl => "go_to_url"
    case ExtractContentAction => "extract_content"
    case ClickElement => "click_element"
    case FillFormAction => "fill_form"
    case FinalAnswer => "final_answer"
    case GoBack => "go_back"
    case FillCredentialsAction => "fill_form_with_user_input_credentials"
    case CreateDocumentAction => "create_document"
    case GenerateDocumentAction => "generate_document"
    case Done => "done"
    case Stop => "stop"
  }

  /** The order in which the keys are probed. */
  const ProbeOrder: seq<Action> := [
    SearchQuery, GoToUrl, ExtractContentAction, ClickElement, FillFormAction, FinalAnswer,
    GoBack, FillCredentialsAction, CreateDocumentAction, GenerateDocumentAction, Done, Stop]

  /** Whether the action object has the action's key (`action_obj.get(key).is_some()`). */
  predicate Present(obj: Json, a: Action) {
    Get(obj, KeyOf(a)).Some?
  }

  /** Reference definition: the first position at or after `from` whose action is present. */
  function FirstPresent(present: Action -> bool, order: seq<Action>, from: nat): (r: Option<nat>)
    requires from <= |order|
    ensures r.Some? ==> from <= r.value < |order| && present(order[r.value])
    ensures r.Some? ==> forall j :: from <= j < r.value ==> !present(order[j])
    ensures r.None? <==> forall j :: from <= j < |order| ==> !present(order[j])
    decreases |order| - from
  {
    if from == |order| then None
    else if present(order[from]) then Some(from)
    else FirstPresent(present, order, from + 1)
  }

  /** The action the walk over `order` stops at. */
  function FirstAction(present: Action -> bool, order: seq<Action>, from: nat): Option<Action>
    decreases |order| - from
  {
    if from >= |order| then None
    else if present(order[from]) then Some(order[from])
    else FirstAction(present, order, from + 1)
  }

  lemma {:induction false} FirstActionIsFirstPresent(present: Action -> bool, order: seq<Action>, from: nat)
    requires from <= |order|
    ensures FirstAction(present, order, from).None? <==> FirstPresent(present, order, from).None?
    ensures FirstAction(present, order, from).Some? ==>
      FirstAction(present, order, from).value == order[FirstPresent(present, order, from).value]
    decreases |order| - from
  {
    if from < |order| && !present(order[from]) {
      FirstActionIsFirstPresent(present, order, from + 1);
    }
  }

  /** The chain of key tests, as written: the first key present decides. */
  function Probe(present: Action -> bool): Option<Action> {
    if present(SearchQuery) then Some(SearchQuery)
    else if present(GoToUrl) then Some(GoToUrl)
    else if present(ExtractContentAction) then Some(ExtractContentAction)
    else if present(ClickElement) then Some(ClickElement)
    else if present(FillFormAction) then Some(FillFormAction)
    else if present(FinalAnswer) then Some(FinalAnswer)
    else if present(GoBack) then Some(GoBack)
    else if present(FillCredentialsAction) then Some(FillCredentialsAction)
    else if present(CreateDocumentAction) then Some(CreateDocumentAction)
    else if present(GenerateDocumentAction) then Some(GenerateDocumentAction)
    else if present(Done) then Some(Done)
    else if present(Stop) then Some(Stop)
    else None
  }

  /** The chain of tests is the walk over the probe order. */
  lemma ProbeFollowsOrder(present: Action -> bool)
    ensures Probe(present) == FirstAction(present, ProbeOrder, 0)
  {
    assert FirstAction(present, ProbeOrder, 11) ==
      if present(Stop) then Some(Stop) else FirstAction(present, ProbeOrder, 12);
    assert FirstAction(present, ProbeOrder, 10) ==
      if present(Done) then Some(Done) else FirstAction(present, ProbeOrder, 11);
    assert FirstAction(present, ProbeOrder, 9) ==
      if present(GenerateDocumentAction) then Some(GenerateDocumentAction) else FirstAction(present, ProbeOrder, 10);
    assert FirstAction(present, ProbeOrder, 8) ==
      if present(CreateDocumentAction) then Some(CreateDocumentAction) else FirstAction(present, ProbeOrder, 9);
    assert FirstAction(present, ProbeOrder, 7) ==
      if present(FillCredentialsAction) then Some(FillCredentialsAction) else FirstAction(present, ProbeOrder, 8);
    assert FirstAction(present, ProbeOrder, 6) ==
      if present(GoBack) then Some(GoBack) else FirstAction(present, ProbeOrder, 7);
    assert FirstAction(present, ProbeOrder, 5) ==
      if present(FinalAnswer) then Some(FinalAnswer) else FirstAction(present, ProbeOrder, 6);
    assert FirstAction(present, ProbeOrder, 4) ==
      if present(FillFormAction) then Some(FillFormAction) else FirstAction(present, ProbeOrder, 5);
    assert FirstAction(present, ProbeOrder, 3) ==
      if present(ClickElement) then Some(ClickElement) else FirstAction(present, ProbeOrder, 4);
    assert FirstAction(present, ProbeOrder, 2) ==
      if present(ExtractContentAction) then Some(ExtractContentAction) else FirstAction(present, ProbeOrder, 3);
    assert FirstAction(present, ProbeOrder, 1) ==
      if present(GoToUrl) then Some(GoToUrl) else FirstAction(present, ProbeOrder, 2);
    assert FirstAction(present, ProbeOrder, 0) ==
      if present(SearchQuery) then Some(SearchQuery) else FirstAction(present, ProbeOrder, 1);
  }

  /**
   * The chain selects the action at the first present position of the probe order, and nothing
   * when no key is present.
   */
  lemma ProbeIsFirstPresent(present: Action -> bool)
    ensures Probe(present).None? <==> FirstPresent(present, ProbeOrder, 0).None?
    ensures Probe(present).Some? ==> Probe(present).value == ProbeOrder[FirstPresent(present, ProbeOrder, 0).value]
  {
    ProbeFollowsOrder(present);
    FirstActionIsFirstPresent(present, ProbeOrder, 0);
  }

  /** Keeps `f(x)` for every `x` where it is defined, in order. */
  function FilterMap<T, U>(xs: seq<T>, f: T -> Option<U>): (r: seq<U>)
    ensures |r| <= |xs|
    ensures forall y :: y in r ==> exists i :: 0 <= i < |xs| && f(xs[i]) == Some(y)
    decreases |xs|
  {
    if xs == [] then []
    else
      var rest := FilterMap(xs[1..], f);
      assert forall i :: 1 <= i < |xs| ==> xs[i] == xs[1..][i - 1];
      match f(xs[0])
      case Some(y) => [y] + rest
      case None => rest
  }

  /** Filtering distributes over concatenation, so the kept items stay in input order. */
  lemma {:induction false} FilterMapAppend<T, U>(a: seq<T>, b: seq<T>, f: T -> Option<U>)
    ensures FilterMap(a + b, f) == FilterMap(a, f) + FilterMap(b, f)
    decreases |a|
  {
    if a != [] {
      assert (a + b)[1..] == a[1..] + b;
      FilterMapAppend(a[1..], b, f);
    } else {
      assert a + b == b;
    }
  }

  /** When every item qualifies, nothing is dropped. */
  lemma {:induction false} FilterMapTotal<T, U>(xs: seq<T>, f: T -> Option<U>)
    requires forall i :: 0 <= i < |xs| ==> f(xs[i]).Some?
    ensures |FilterMap(xs, f)| == |xs|
    ensures forall i :: 0 <= i < |xs| ==> FilterMap(xs, f)[i] == f(xs[i]).value
    decreases |xs|
  {
    if xs != [] {
      assert forall i :: 1 <= i < |xs| ==> xs[i] == xs[1..][i - 1];
      FilterMapTotal(xs[1..], f);
    }
  }

  /** A form item: a string selector and a string value. */
  function AsField(item: Json): (r: Option<FormField>)
    ensures r.Some? <==> Field(item, "selector").Str? && Field(item, "value").Str?
  {
    match (AsStr(Field(item, "selector")), AsStr(Field(item, "value")))
    case (Some(selector), Some(value)) => Some(FormField(selector, value))
    case _ => None
  }

  /** `obj[outer][inner]` as a string, if it is one. */
  function Param(obj: Json, outer: string, inner: string): Option<string> {
    AsStr(Field(Field(obj, outer), inner))
  }

  function AnswerOrComplete(answer: Option<string>): string {
    match answer
    case Some(a) => FinalAnswerPrefix + a
    case None => TaskComplete
  }

  /** What each handler decides for the action object. */
  function Handle(a: Action, obj: Json): (d: Decision)
    ensures d.effect.Some? ==> d.result == Continue
    ensures a in {FinalAnswer, Stop, Done} <==> d.result != Continue
    ensures IsResultString(d.result)
    // the answering actions: the answer text when it is a string, otherwise completion
    ensures a == FinalAnswer || a == Stop ==>
      var answer := if a == FinalAnswer then Param(obj, "final_answer", "answer") else Param(obj, "stop", "final_answer");
      && d.effect.None?
      && (answer.Some? ==> d.result == FinalAnswerPrefix + answer.value)
      && (answer.None? ==> d.result == TaskComplete)
    ensures a == Done ==> d == Decision(None, AgentDone)
    // the browser actions: the effect carries the action's parameters, and none runs without them
    ensures a == SearchQuery ==> var q := Param(obj, "search_query", "query");
      d.effect == (if q.Some? then Some(Search(q.value)) else None)
    ensures a == GoToUrl ==> var u := Param(obj, "go_to_url", "url");
      d.effect == (if u.Some? then Some(Navigate(u.value)) else None)
    ensures a == ClickElement ==> var s := Param(obj, "click_element", "selector");
      d.effect == (if s.Some? then Some(Click(s.value)) else None)
    ensures a == ExtractContentAction ==> d.effect == Some(ExtractPage)
    ensures a == GoBack ==> d.effect == Some(Back)
    ensures a == FillFormAction ==> var items := AsArray(Field(Field(obj, "fill_form"), "data"));
      d.effect == (if items.Some? then Some(Fill(FilterMap(items.value, AsField))) else None)
    ensures a == FillCredentialsAction ==>
      var items := AsArray(Field(Field(obj, "fill_form_with_user_input_credentials"), "data"));
      d.effect == (if items.Some? then Some(FillCredentials(FilterMap(items.value, AsStr))) else None)
    ensures a == CreateDocumentAction ==>
      var f, c, t := Param(obj, "create_document", "filename"), Param(obj, "create_document", "content"),
        Param(obj, "create_document", "format");
      d.effect == (if f.Some? && c.Some? && t.Some? then Some(Create(f.value, c.value, t.value)) else None)
    ensures a == GenerateDocumentAction ==>
      var g, f, t := Param(obj, "generate_document", "task_description"), Param(obj, "generate_document", "filename"),
        Param(obj, "generate_document", "format");
      d.effect == (if g.Some? && f.Some? && t.Some? then Some(Generate(g.value, f.value, t.value)) else None)
  {
    match a
    case SearchQuery =>
      (match Param(obj, "search_query", "query")
      case Some(q) => Decision(Some(Search(q)), Continue)
      case None => Decision(None, Continue))
    case GoToUrl =>
      (match Param(obj, "go_to_url", "url")
      case Some(u) => Decision(Some(Navigate(u)), Continue)
      case None => Decision(None, Continue))
    case ExtractContentAction => Decision(Some(ExtractPage), Continue)
    case ClickElement =>
      (match Param(obj, "click_element", "selector")
      case Some(s) => Decision(Some(Click(s)), Continue)
      case None => Decision(None, Continue))
    case FillFormAction =>
      (match AsArray(Field(Field(obj, "fill_form"), "data"))
      case Some(items) => Decision(Some(Fill(FilterMap(items, AsField))), Continue)
      case None => Decision(None, Continue))
    case FinalAnswer => Decision(None, AnswerOrComplete(Param(obj, "final_answer", "answer")))
    case GoBack => Decision(Some(Back), Continue)
    case FillCredentialsAction =>
      (match AsArray(Field(Field(obj, "fill_form_with_user_input_credentials"), "data"))
      case Some(items) => Decision(Some(FillCredentials(FilterMap(items, AsStr))), Continue)
      case None => Decision(None, Continue))
    case CreateDocumentAction =>
      (match (Param(obj, "create_document", "filename"), Param(obj, "create_document", "content"), Param(obj, "create_document", "format"))
      case (Some(f), Some(c), Some(t)) => Decision(Some(Create(f, c, t)), Continue)
      case _ => Decision(None, Continue))
    case GenerateDocumentAction =>
      (match (Param(obj, "generate_document", "task_description"), Param(obj, "generate_document", "filename"), Param(obj, "generate_document", "format"))
      case (Some(d), Some(f), Some(t)) => Decision(Some(Generate(d, f, t)), Continue)
      case _ => Decision(None, Continue))
    case Done => Decision(None, AgentDone)
    case Stop => Decision(None, AnswerOrComplete(Param(obj, "stop", "final_answer")))
  }

  /** The result strings the executor can produce. */
  predicate IsResultString(s: string) {
    s in {ParsingJson, ParsingAction, TaskComplete, AgentDone, Continue} || StartsWith(s, FinalAnswerPrefix)
  }

  /**
   * The decision for a reply and a next-action text, each already parsed (`None` when the text is
   * not JSON). A reply whose `done` member is `true` ends before the action is looked at.
   */
  function Decide(reply: Option<Json>, action: Option<Json>): (d: Decision)
    ensures IsResultString(d.result)
    ensures d.effect.Some? ==> d.result == Continue
    ensures reply.None? ==> d == Decision(None, ParsingJson)
    ensures reply.Some? && Field(reply.value, "done") == Bool(true) ==>
      && d.effect.None?
      && (Field(reply.value, "final_answer").Str? ==> d.result == FinalAnswerPrefix + Field(reply.value, "final_answer").s)
      && (!Field(reply.value, "final_answer").Str? ==> d.result == TaskComplete)
    ensures reply.Some? && Field(reply.value, "done") != Bool(true) && action.None? ==> d == Decision(None, ParsingAction)
    ensures reply.Some? && Field(reply.value, "done") != Bool(true) && action.Some? ==>
      var first := FirstPresent(a => Present(action.value, a), ProbeOrder, 0);
      && (first.None? ==> d == Decision(None, Continue))
      && (first.Some? ==> d == Handle(ProbeOrder[first.value], action.value))
  {
    assert IsResultString(ParsingJson) && IsResultString(ParsingAction) && IsResultString(TaskComplete);
    match reply
    case None => Decision(None, ParsingJson)
    case Some(v) =>
      if AsBool(Field(v, "done")) == Some(true) then
        Decision(None, AnswerOrComplete(AsStr(Field(v, "final_answer"))))
      else
        match action
        case None => Decision(None, ParsingAction)
        case Some(obj) => Dispatch(obj)
  }

  /** The decision for an action object: the handler of the first action key present, if any. */
  function Dispatch(obj: Json): (d: Decision)
    ensures var first := FirstPresent(a => Present(obj, a), ProbeOrder, 0);
      && (first.None? ==> d == Decision(None, Continue))
      && (first.Some? ==> d == Handle(ProbeOrder[first.value], obj))
  {
    ProbeIsFirstPresent(a => Present(obj, a));
    match Probe(a => Present(obj, a))
    case None => Decision(None, Continue)
    case Some(a) => Handle(a, obj)
  }

  // ------------------------------------------------------------------ effects

  /**
   * The browser's and the outside world's answers for one execution: `goto`, opening a tab, the
   * page body, the summary and document replies of the language model, finding an element and
   * typing into it, clicking, going back, the lines typed at the prompt, and the filesystem.
   */
  datatype Browser = Browser(
    encode: string -> string,
    navigate: string -> Outcome<string>,
    newTab: Outcome<string>,
    body: Result<string, string>,
    summary: Result<string, string>,
    send: FormField -> Outcome<string>,
    click: string -> Outcome<string>,
    back: Outcome<string>,
    lines: nat -> string,
    fs: FileSystem,
    documentReply: Result<string, string>)

  function OutcomeOf<T>(r: Result<T, string>): Outcome<string> {
    match r
    case Success(_) => Pass
    case Failure(e) => Fail(e)
  }

  /** Carries out an effect through the action layer; only a driver failure is a failure. */
  function RunEffect(e: Effect, b: Browser): (r: Outcome<string>)
    ensures e.Fill? ==> r == SendAll(e.fields, b.send)
    ensures e.Navigate? ==> (r.Pass? <==> b.newTab.Pass? && b.navigate(e.url).Pass?)
    ensures e.ExtractPage? ==> (r.Pass? <==> b.body.Success?)
    ensures e.Search? ==> r == b.navigate(SearchUrl(e.term, b.encode))
    ensures e.Click? ==> r == b.click(e.selector)
    ensures e.Back? ==> r == b.back
    ensures e.FillCredentials? ==> r == SendAll(CredentialFields(e.selectors, b.lines), b.send)
    ensures e.Create? || e.Generate? ==> r == Pass
  {
    match e
    case Search(term) => b.navigate(SearchUrl(term, b.encode))
    case Navigate(url) => if b.newTab.Fail? then b.newTab else b.navigate(url)
    case ExtractPage => OutcomeOf(ExtractContent(b.body, b.summary))
    case Click(selector) => b.click(selector)
    case Fill(fields) => SendAll(fields, b.send)
    case Back => b.back
    case FillCredentials(selectors) => SendAll(CredentialFields(selectors, b.lines), b.send)
    case Create(filename, content, format) => OutcomeOf(CreateDocument(filename, content, format, b.fs))
    case Generate(_, filename, format) => OutcomeOf(GenerateDocument(filename, format, b.documentReply, b.fs))
  }

  /** Writing or generating a document reports its problems in the message and never fails the step. */
  lemma DocumentsNeverFail(e: Effect, b: Browser)
    requires e.Create? || e.Generate?
    ensures RunEffect(e, b) == Pass
  {
  }

  /**
   * `execute_task`: parse both texts, decide, and run the effect; a driver failure replaces the
   * result string with an error.
   */
  function ExecuteTask(response: string, nextAction: string, parse: string -> Option<Json>, b: Browser): (r: Result<string, string>)
    ensures r.Failure? <==>
      (Decide(parse(response), parse(nextAction)).effect.Some? &&
       RunEffect(Decide(parse(response), parse(nextAction)).effect.value, b).Fail?)
    ensures r.Failure? ==> r.error == RunEffect(Decide(parse(response), parse(nextAction)).effect.value, b).error
    ensures r.Success? ==> r.value == Decide(parse(response), parse(nextAction)).result
    ensures r.Success? ==> IsResultString(r.value)
    ensures parse(response).None? ==> r == Success(ParsingJson)
  {
    var d := Decide(parse(response), parse(nextAction));
    match d.effect
    case None => Success(d.result)
    case Some(e) =>
      match RunEffect(e, b)
      case Fail(err) => Failure(err)
      case Pass => Success(d.result)
  }

  // ------------------------------------------------------------------ facts

  /** A reply with `done: true` is answered without looking at the action text at all. */
  lemma DoneShortCircuits(reply: Json, a1: Option<Json>, a2: Option<Json>)
    requires Field(reply, "done") == Bool(true)
    ensures Decide(Some(reply), a1) == Decide(Some(reply), a2)
    ensures Decide(Some(reply), a1).effect.None?
  {
  }

  /** A recognised key whose parameter is missing or of the wrong type does nothing and continues. */
  lemma MissingParameterContinues(obj: Json)
    ensures Param(obj, "search_query", "query").None? ==> Handle(SearchQuery, obj) == Decision(None, Continue)
    ensures Param(obj, "go_to_url", "url").None? ==> Handle(GoToUrl, obj) == Decision(None, Continue)
    ensures Param(obj, "click_element", "selector").None? ==> Handle(ClickElement, obj) == Decision(None, Continue)
    ensures !Field(Field(obj, "fill_form"), "data").Array? ==> Handle(FillFormAction, obj) == Decision(None, Continue)
  {
  }

  /** An action object with a `search_query` member searches, whatever other members it has. */
  lemma SearchWins(reply: Json, obj: Json, query: string)
    requires Field(reply, "done") != Bool(true)
    requires Get(obj, "search_query").Some? && Param(obj, "search_query", "query") == Some(query)
    ensures Decide(Some(reply), Some(obj)) == Decision(Some(Search(query)), Continue)
  {
    assert Probe(a => Present(obj, a)) == Some(SearchQuery);
  }

  /** A form item lacking a string selector or value is skipped wherever it stands; the rest keep their order. */
  lemma FormItemsKept(before: seq<Json>, extra: Json, after: seq<Json>)
    requires AsField(extra).None?
    ensures FilterMap(before + [extra] + after, AsField) == FilterMap(before, AsField) + FilterMap(after, AsField)
  {
    var front := before + [extra];
    assert FilterMap([extra], AsField) == [] by {
      assert [extra][1..] == [];
    }
    assert FilterMap(front, AsField) == FilterMap(before, AsField) by {
      FilterMapAppend(before, [extra], AsField);
    }
    FilterMapAppend(front, after, AsField);
  }

  /** When every item is usable, every item is typed, in input order. */
  lemma FormItemsAllUsable(items: seq<Json>)
    requires forall i :: 0 <= i < |items| ==> AsField(items[i]).Some?
    ensures |FilterMap(items, AsField)| == |items|
    ensures forall i :: 0 <= i < |items| ==>
      FilterMap(items, AsField)[i] == FormField(AsStr(Field(items[i], "selector")).value, AsStr(Field(items[i], "value")).value)
  {
    FilterMapTotal(items, AsField);
  }

  /** An action object holding only a final answer. */
  function FinalAnswerObject(answer: string): Json {
    Object(map["final_answer" := Object(map["answer" := Str(answer)])])
  }

  /** A final-answer action answers with its text and runs no effect. */
  lemma FinalAnswerDecided(reply: Json, answer: string)
    requires Field(reply, "done") != Bool(true)
    ensures Decide(Some(reply), Some(FinalAnswerObject(answer))) == Decision(None, FinalAnswerPrefix + answer)
  {
    var obj := FinalAnswerObject(answer);
    assert Dispatch(obj) == Decision(None, FinalAnswerPrefix + answer) by {
      assert obj.members.Keys == {"final_answer"};
      assert Probe(a => Present(obj, a)) == Some(FinalAnswer);
      assert Param(obj, "final_answer", "answer") == Some(answer);
    }
  }
}
