# project-oculus: the agent loop and the element resolver, in Dafny

This project models the decision logic of project-oculus. project-oculus is a browser agent in which a
language model plans a task and a loop carries it out through a WebDriver session. It covers five parts.

- **Interactive-element resolver** (`src/browser_control/interactive_elements.rs`).
  - One pass over the candidate elements of a page builds a map from descriptive keys to locators.
  - Keys come from the tag and the first three words of the text, are sanitised to `[a-z0-9_]`, and get a
    numeric suffix on collision.
  - Locators follow a fixed priority chain: unique id, then unique `tag[name='…']`, then a script-generated
    XPath that matches something, then a positional CSS selector.
  - The page script `getElementXPath` is modelled over an abstract DOM node with its siblings and parents
    (module `XPathRule`).
  - Keys are in `ElementKeys`; the chain and the scan are in `ElementScan`.
- **Executor** (`src/agent/executor.rs`, module `Executor`).
  - The agent's reply and the next-action text, each parsed as JSON or not, become exactly one result string
    (`ERROR_PARSING_JSON`, `ERROR_PARSING_ACTION`, `FINAL_ANSWER: …`, `TASK_COMPLETE`, `AGENT_DONE`,
    `CONTINUE`) and at most one browser effect.
  - The effect is chosen by probing twelve action keys in a fixed order. A failing browser effect turns the
    result into an error.
- **Orchestrator** (`src/agent/orchestrator.rs`, module `Orchestrator`).
  - A loop of at most ten steps. Each step shows the last five history entries in a prompt, asks the task
    agent, records the decision, executes it, classifies the result and either stops or goes on.
  - After the loop, the step-budget answer overwrites whatever answer was set.
  - The loop is a function `RunFrom` over an abstract `Loop` record, and the method `Orchestrate` is proved
    to compute it.
- **Task store and task agent** (`src/agent/task.rs`, module `TaskStore`).
  - The process-wide history is an `Option<seq<string>>`. It is created by the first read and only ever
    appended to.
  - `task_agent` cleans the model's reply and never fails.
- **Action layer** (`src/browser_control/actions.rs`, module `Actions`).
  - Document paths and extensions, and the clean-up of generated documents.
  - The search URL, the wrapping of extracted content and of page analysis.
  - Form filling as a sequence of driver calls that stops at the first failure.

Supporting modules:
- `Wrappers`: `Option`, `Result`, and `Outcome` (pass or fail).
- `Strings`: Rust's `trim`, `trim_matches`, `split_whitespace`, `join`, `replace`, ASCII case mapping and
  decimal rendering.
- `Json`: serde's `Value` and the accessors `get`, `[]`, `as_str`, `as_bool` and `as_array`.

Everything the outside world answers is a parameter, and nothing in the model performs I/O:
- the driver's answers about each element (`ElementView`) and the match count of a locator (`MatchCount`);
- the language model's replies;
- the JSON parser and the URL encoder;
- the filesystem's answers (`FileSystem`);
- the lines typed at the prompt;
- the browser's outcomes (`Executor.Browser`).

Some behaviours of the code are modelled as written. The lemmas pin them down.
- `replace("__", "_")` is a single pass, so `a___b` sanitises to `a__b`. A double underscore therefore
  survives although the comment above the sanitiser says otherwise, and sanitising is not idempotent.
- `task_agent` never returns an error. The orchestrator's branch for a task-agent error therefore cannot be
  taken in the running program (`Orchestrator.AgentNeverFails`).
- The executor's `AGENT_DONE` does not stop the loop (`Orchestrator.ClassifyAgentDone`).
- Reaching the tenth step overwrites an answer found at that step (`Orchestrator.BudgetOverridesAnswer`).
- The orchestrator calls `execute_task` with two arguments (`src/agent/orchestrator.rs:125`), but the
  function takes three: the reply, the driver and the next-action text (`src/agent/executor.rs:9-13`).
  - The model gives the executor its action text as a separate input per step (`actionTexts` in
    `Orchestrator.Wired`).
  - The executor parses that text as the action object, exactly as its code does.

## Model

| member | source | states |
|---|---|---|
| XPathRule.ScriptXPath | src/browser_control/interactive_elements.rs:35-39 | the driver's answer gives a path exactly when it is a JSON string; null and every other value give none |
| XPathRule.ToScriptValue | src/browser_control/interactive_elements.rs:25-39 | the script's answer handed back by the driver, a string or null, reads back as that same answer |
| XPathRule.XPathIdShortcut | src/browser_control/interactive_elements.rs:13 | an element with a non-empty id is described by `//*[@id="<id>"]` alone, whatever its ancestors |
| XPathRule.StepsCount | src/browser_control/interactive_elements.rs:15-24 | the walk yields one step per consecutive element on the way up, and the last step is the node's own |
| XPathRule.XPathNull | src/browser_control/interactive_elements.rs:13-25 | the script answers null exactly when its argument is null or not an element |
| XPathRule.XPathSteps | src/browser_control/interactive_elements.rs:14-25 | without an id, the path is `/` and then the steps: splitting the rest on `/` gives back the steps, outermost first, one per element, ending with the node's own step |
| XPathRule.SegmentIndexed | src/browser_control/interactive_elements.rs:16-22 | a step carries a `[k]` index exactly when a same-name sibling that is not a document type precedes the node, and always starts with the lower-cased name |
| ElementKeys.KeyBase | src/browser_control/interactive_elements.rs:80-98 | text with a non-whitespace character gives the tag, `_`, and its first three whitespace-separated words joined by `_`; blank text gives the tag, `_no_text_idx_` and the enumeration index |
| ElementKeys.KeepKeyChars | src/browser_control/interactive_elements.rs:103-105 | every character kept is an ASCII letter, digit or `_` and comes from the input |
| ElementKeys.KeepKeyCharsSingle | src/browser_control/interactive_elements.rs:103-105 | a single character is kept exactly when it is an ASCII letter, digit or `_`, and dropped otherwise |
| ElementKeys.KeepKeyCharsAppend | src/browser_control/interactive_elements.rs:103-105 | the filter of two texts joined is the two filters joined, so with the single-character rule every key character is kept, in order, and nothing else |
| ElementKeys.Sanitize | src/browser_control/interactive_elements.rs:100-107 | the sanitised key holds only `a-z`, `0-9` and `_`, and a non-empty one neither starts nor ends with `_` |
| ElementKeys.ElementKey | src/browser_control/interactive_elements.rs:100-112 | the stored key is always well formed; it is `unknown_element_<index>` exactly when sanitising leaves nothing, and the sanitised key otherwise |
| ElementKeys.CollapseRun | src/browser_control/interactive_elements.rs:106 | the single replace pass turns a run of n underscores into ceil(n/2) of them |
| ElementKeys.CollapseRunBefore | src/browser_control/interactive_elements.rs:106 | a run of n underscores followed by any other character becomes ceil(n/2) underscores, the character is kept, and the pass carries on over the rest of the text |
| ElementKeys.SanitizeClean | src/browser_control/interactive_elements.rs:100-107 | a key that is already well formed and free of `__` is left unchanged |
| ElementKeys.TripleUnderscoreSurvives | src/browser_control/interactive_elements.rs:100-107 | `a___b` sanitises to `a__b`: a double underscore survives sanitising |
| ElementKeys.SanitizeNotIdempotent | src/browser_control/interactive_elements.rs:100-107 | sanitising a sanitised key can change it again |
| ElementKeys.CandidatesSize | src/browser_control/interactive_elements.rs:115-119 | the key and its suffixed forms `key_1`, `key_2`, … are pairwise distinct, so the suffix search always ends |
| ElementKeys.CandidateWellFormed | src/browser_control/interactive_elements.rs:119 | adding a numeric suffix keeps a key well formed |
| ElementKeys.UniqueKey | src/browser_control/interactive_elements.rs:114-120 | the inserted key is not yet in the map, and it is the key itself or `key_k` for the least k whose candidate is free |
| ElementScan.EscapeRoundTrip | src/browser_control/interactive_elements.rs:146-147 | escaping `'` as `\'` in the name selector loses nothing: unescaping gives back the name |
| ElementScan.ChooseLocatorTiers | src/browser_control/interactive_elements.rs:124-187 | each tier is chosen exactly when its rule applies and every earlier rule answered without a driver error and did not apply, and each tier yields the locator it builds |
| ElementScan.IdBeatsName | src/browser_control/interactive_elements.rs:126-139 | a non-empty id that matches exactly one element wins even when a usable name is present |
| ElementScan.FallbackWhenNothingMatches | src/browser_control/interactive_elements.rs:176-187 | with no id, no name and a script path matching nothing, the locator is `html body <tag>:nth-of-type(<index+1>)` |
| ElementScan.KeptUpToComplete | src/browser_control/interactive_elements.rs:64-78 | the kept positions increase and include every displayed candidate whose tag name can be read |
| ElementScan.Scan | src/browser_control/interactive_elements.rs:50-199 | a failed `find_all` is the scan's error. Otherwise the scan succeeds exactly when every kept candidate's chain answers, and a failure is the error of the first kept candidate whose chain fails. On success the map has one entry per kept candidate, in order, under its element key with the least free suffix; the keys are distinct and well formed, and each entry holds that candidate's chosen locator |
| ElementScan.ScanWith | src/browser_control/interactive_elements.rs:62-190 | the same, for any key rule giving well-formed keys and any locator rule |
| ElementScan.ScanAll | src/browser_control/interactive_elements.rs:64-190 | the loop over the candidates either keeps the map invariant up to the last candidate or stops at the first failing chain |
| ElementScan.ScanAt | src/browser_control/interactive_elements.rs:64-190 | a skipped candidate changes nothing; a kept one appends exactly its suffixed key and keeps the invariant, unless its chain fails, which is then the first failure of the scan |
| ElementScan.ScanEntry | src/browser_control/interactive_elements.rs:80-190 | in a finished map, the j-th kept candidate's key is its element key with the j-th suffix, and the key maps to the locator its priority chain chose |
| TaskStore.GetHistory | src/agent/task.rs:42-51 | after a read the store exists; an existing store is returned unchanged, and a missing one is created empty and read as empty |
| TaskStore.AddToHistory | src/agent/task.rs:53-61 | without a store the call fails with `Task history not initialized` and the store stays absent; otherwise exactly the entry is appended and earlier entries are kept |
| TaskStore.RunExtends | src/agent/task.rs:42-61 | on an existing store, any sequence of reads and appends leaves the earlier entries followed by exactly the appended ones, in order |
| TaskStore.RunFromAbsent | src/agent/task.rs:42-61 | from an absent store, appends before the first read are lost, and after it the store holds exactly the later appends |
| TaskStore.CleanReply | src/agent/task.rs:22-26 | the cleaned reply has no newline, and it is the reply with some characters removed and the rest kept in order |
| TaskStore.CleanReplyNoFence | src/agent/task.rs:22-26 | a reply without backticks loses exactly its newlines, everything else kept in order |
| TaskStore.CleanReplyFenced | src/agent/task.rs:22-26 | a reply `` ```json `` + text + `` ``` `` whose text has no backtick becomes that text with its newlines removed |
| TaskStore.CleanReplyPlain | src/agent/task.rs:22-26 | a reply without backticks and newlines passes through unchanged |
| TaskStore.TaskAgent | src/agent/task.rs:7-30 | never fails; a failed model request yields the empty reply, otherwise the cleaned reply to the task prompt followed by the input; the result has no newline |
| Actions.Extension | src/browser_control/actions.rs:157-163 | `.md` exactly for markdown or md, `.json` for json, `.html` for html, and `.txt` for every other format, compared in lower case |
| Actions.DocumentPath | src/browser_control/actions.rs:146-163 | the path is `documents/`, then the filename, then the extension; the filename and the extension can be read back out of it |
| Actions.DocumentPathIgnoresCase | src/browser_control/actions.rs:157 | formats that differ only in ASCII case give the same path |
| Actions.CreateDocument | src/browser_control/actions.rs:134-173 | never an error. A file is saved exactly when the directory exists or can be made and the write succeeds; it holds the content at the document path, and the message is `Document saved: <path>`. Otherwise the message starts with `Error: ` |
| Actions.UnfenceLeavesNone | src/browser_control/actions.rs:218 | one pass of removing the fence leaves no fence behind |
| Actions.CleanGenerated | src/browser_control/actions.rs:213-235 | markdown, html and json content comes out with no fence and no surrounding whitespace; other formats are kept as they are |
| Actions.CleanGeneratedPlain | src/browser_control/actions.rs:213-232 | for markdown, html and json, content without a backtick is only trimmed |
| Actions.CleanGeneratedChars | src/browser_control/actions.rs:213-235 | cleaning only removes characters: the cleaned content is the generated content with some characters taken out and the rest kept in order |
| Actions.CleanGeneratedFenced | src/browser_control/actions.rs:213-232 | for markdown, html and json, content wrapped in the format's opening fence and a closing fence, with no backtick inside, comes out as the inner content, trimmed |
| Actions.GenerateDocument | src/browser_control/actions.rs:175-244 | never an error. A failed request is reported with `Error: Failed to generate document: ` and writes nothing; otherwise the cleaned content is saved as `create_document` would save it, and a fenced format's saved content holds no fence |
| Actions.SearchUrl | src/browser_control/actions.rs:88-94 | the search URL starts with the search engine's query prefix |
| Actions.SearchRoundTrip | src/browser_control/actions.rs:90-91 | with a decoder that inverts the encoder, the search term can be read back from the URL |
| Actions.ExtractContent | src/browser_control/actions.rs:13-33 | a body read failure is the only error; the result starts with the body, and it is the body alone exactly when summarising fails, or else the body, `\n\nSummary: ` and the summary |
| Actions.ExtractInformation | src/browser_control/actions.rs:51-86 | a body read failure is the only error; otherwise the cleaned reply, or the fixed error message when the request fails, never with a newline |
| Actions.SendAll | src/browser_control/actions.rs:42-49 | passes exactly when every field is typed successfully; a failure is the outcome of the first failing field, and all fields before it succeeded |
| Actions.FillForm | src/browser_control/actions.rs:42-49 | the loop types the fields in order and stops at the first failure, which is the last field attempted; on success every field was attempted |
| Actions.CredentialFields | src/browser_control/actions.rs:115-132 | one field per selector, in order, each typing the trimmed line read for it |
| Actions.CredentialsTrimmed | src/browser_control/actions.rs:126 | a typed credential never starts or ends with whitespace, such as the line's newline |
| Json.Get | src/agent/executor.rs:35 | a member is found exactly when the value is an object that has it |
| Json.Field | src/agent/executor.rs:36 | indexing a missing member, or a value that is not an object, gives `Null` |
| Executor.FirstPresent | src/agent/executor.rs:35-144 | reference definition: the first position in the order whose action key is present, or none when no key is present |
| Executor.ProbeIsFirstPresent | src/agent/executor.rs:35-144 | the chain of key tests selects the action at the first present position of the probe order, and nothing exactly when no key is present |
| Executor.Handle | src/agent/executor.rs:35-143 | an action with a browser effect answers `CONTINUE`, and the answer differs from `CONTINUE` exactly for `final_answer`, `done` and `stop`. `final_answer` and `stop` run nothing and answer `FINAL_ANSWER: <answer>` when their answer member is a string, else `TASK_COMPLETE`; `done` answers `AGENT_DONE`. Search, navigation and click run with their string parameter and run nothing without it; extracting and going back always run; a form fills the usable items of its data array, a credential form the string selectors of its array, and the document actions run only when all three string parameters are present |
| Executor.Decide | src/agent/executor.rs:14-156 | a reply that is not JSON gives `ERROR_PARSING_JSON` and no effect. `done: true` gives `FINAL_ANSWER: <final_answer>` or `TASK_COMPLETE` with no effect. An unparsable action text gives `ERROR_PARSING_ACTION`. Otherwise the handler of the first present key in probe order decides, and `CONTINUE` when none is present |
| Executor.Dispatch | src/agent/executor.rs:33-144 | the decision for an action object is the handler of its first present key in probe order, or `CONTINUE` with no effect |
| Executor.AsField | src/agent/executor.rs:63-64 | a form item is usable exactly when both its selector and its value are strings |
| Executor.RunEffect | src/agent/executor.rs:35-131 | a search is the outcome of navigating to the search URL; navigating passes exactly when the new tab and the navigation both pass; extracting passes exactly when the body can be read; a click and going back are the driver's outcomes; a form, and a credential form with the lines read for it, are the outcome of typing their fields; the document actions always pass |
| Executor.DocumentsNeverFail | src/agent/executor.rs:100-131 | creating or generating a document never fails the step |
| Executor.ExecuteTask | src/agent/executor.rs:9-157 | fails exactly when the decision has an effect and running it fails, with that error; otherwise the decision's result string; a reply that is not JSON gives `ERROR_PARSING_JSON` |
| Executor.DoneShortCircuits | src/agent/executor.rs:18-24 | with `done: true` the action text is never looked at and no effect runs |
| Executor.MissingParameterContinues | src/agent/executor.rs:36-71 | a search, navigation, click or form action whose parameter is missing or of the wrong type does nothing and continues |
| Executor.SearchWins | src/agent/executor.rs:35-40 | an action object with a `search_query` member searches for its query, whatever other keys it has |
| Executor.FormItemsKept | src/agent/executor.rs:59-68 | an unusable form item at any position is dropped, and the items before and after it are kept in input order |
| Executor.FormItemsAllUsable | src/agent/executor.rs:59-68 | when every item is usable, the form has one field per item, in order, holding that item's selector and value |
| Executor.FinalAnswerDecided | src/agent/executor.rs:14-78 | an action text holding `final_answer` with a string answer, after a reply that is not done, decides `FINAL_ANSWER: <answer>` with no effect |
| Orchestrator.WindowIsSuffix | src/agent/orchestrator.rs:56-63 | reversing, taking five and reversing again gives the last min(5, n) entries in their original order |
| Orchestrator.HistoryView | src/agent/orchestrator.rs:50-65 | an empty history reads `No previous actions taken.`; otherwise the header followed by the last min(5, n) entries joined by newlines |
| Orchestrator.GenPrompt | src/agent/orchestrator.rs:220-234 | the prompt is the plan heading, the plan, the URL heading, the URL, the history heading, the history and the closing instruction, each at its position and nothing else |
| Orchestrator.Classify | src/agent/orchestrator.rs:137-167 | a result starting `FINAL_ANSWER:` answers with every `FINAL_ANSWER: ` removed, trimmed. Otherwise a result equal in upper case to `TASK_COMPLETE` or `"TASK_COMPLETE"` completes. Otherwise one containing `ERROR` in upper case is an error, marked as bad JSON exactly when it contains `ERROR_PARSING_JSON`. Anything else proceeds |
| Orchestrator.StepAgentError | src/agent/orchestrator.rs:96-108 | a failing task agent adds one error entry and ends the loop with `Error in task agent: <error>` |
| Orchestrator.StepExecutionError | src/agent/orchestrator.rs:169-181 | a failing execution adds the decision, the action and the error entry, and ends the loop with `Critical error during execution: <error>` |
| Orchestrator.StepExecuted | src/agent/orchestrator.rs:84-167 | a completed execution adds the decision, the action and the result entries, in that order. An answer ends the loop with it. Completion ends it with this step's own result entry. A bad-JSON error adds a fourth entry and goes on. Any other error, and anything else, goes on |
| Orchestrator.StepExtends | src/agent/orchestrator.rs:30-185 | every step creates the store if needed and appends between one and four entries, keeping the earlier ones |
| Orchestrator.RunFrom | src/agent/orchestrator.rs:27-185 | the loop begins at least one and at most ten steps, stops early only with an answer, and leaves a created store |
| Orchestrator.Orchestrate | src/agent/orchestrator.rs:26-194 | the loop and the check after it compute the reference run, and the answer is its final answer. Between one and ten steps are taken, and the store at the end extends the initial history |
| Orchestrator.OrchestrateWith | src/agent/orchestrator.rs:26-194 | the same, for any agent, executor and result reading |
| Orchestrator.RunExtendsHistory | src/agent/orchestrator.rs:30-185 | history only grows: every entry present when the loop starts is still there, in place |
| Orchestrator.BudgetOverridesAnswer | src/agent/orchestrator.rs:187-194 | after ten steps the answer is `Reached max steps. Last known state: ` and the last entry, whatever the last step answered |
| Orchestrator.FirstStepSeesNoHistory | src/agent/orchestrator.rs:50-52 | on a fresh store the first prompt shows `No previous actions taken.` |
| Orchestrator.ClassifyError | src/agent/orchestrator.rs:137-166 | every upper-case result opening with `ERROR` is an error, marked as bad JSON exactly when it contains `ERROR_PARSING_JSON` |
| Orchestrator.ClassifyProceed | src/agent/orchestrator.rs:137-167 | an upper-case result without the letter R that neither starts with `FINAL_ANSWER:` nor is a completion marker lets the loop go on |
| Orchestrator.ClassifyParsingJson | src/agent/orchestrator.rs:152-166 | the executor's `ERROR_PARSING_JSON` is an error that adds the bad-JSON entry |
| Orchestrator.ClassifyParsingAction | src/agent/orchestrator.rs:152-166 | the executor's `ERROR_PARSING_ACTION` is an error that adds no extra entry |
| Orchestrator.ClassifyTaskComplete | src/agent/orchestrator.rs:141-151 | the executor's `TASK_COMPLETE` ends the loop as completed |
| Orchestrator.ClassifyContinue | src/agent/orchestrator.rs:137-167 | the executor's `CONTINUE` lets the loop go on |
| Orchestrator.ClassifyAgentDone | src/agent/orchestrator.rs:137-167 | the executor's `AGENT_DONE` lets the loop go on |
| Orchestrator.ClassifyFinalAnswer | src/agent/orchestrator.rs:137-140 | an executor answer `FINAL_ANSWER: <a>` becomes the loop's answer, trimmed |
| Orchestrator.FinalAnswerEndsLoop | src/agent/orchestrator.rs:137-140 | a `final_answer` action whose answer text does not itself hold `FINAL_ANSWER: ` is executed without an effect and read by the loop as that answer, trimmed |
| Orchestrator.AgentNeverFails | src/agent/orchestrator.rs:82-108 | in the running program the task agent always succeeds, so the task-agent error branch is never taken |

## Left out

- Driver calls (`find_all`, `is_displayed`, `attr`, `execute`, `goto`, `back`, `click`, `send_keys`, `new_tab`,
  `current_url`, `quit`) are not performed. Their answers are parameters.
- Creating and quitting the browser at `src/agent/orchestrator.rs:15-24` and `src/agent/orchestrator.rs:210-214`
  are left out. The browser itself is not modelled.
- The language model (`generate_ai_response`) is a parameter returning a result. The prompt texts of
  `src/prompts.rs` are a parameter too. `src/utils.rs` is not part of this model.
- serde_json parsing is a parameter `string -> Option<Json>`, and percent-encoding is a parameter
  `string -> string`. The JSON grammar and the encoding are not modelled. JSON numbers are reals.
- Case mapping is ASCII only. Rust's `to_lowercase` and `to_uppercase` are Unicode-aware, so `Lower` and
  `Upper` agree with them on ASCII text only.
- Logging with `print!`, `println!` and `eprintln!` is left out. So are the final report at
  `src/agent/orchestrator.rs:196-208`, the one-second sleep between steps, and the `OnceLock`/`Mutex`
  synchronisation of the history; the history is a plain optional sequence.
- The loop fetches the interactive-element map at every step, but the `elements_string` built from it
  (`src/agent/orchestrator.rs:34-48`) is never used. The modelled loop therefore does not call the scan.
- The reply is executed against an action text given per step. The call at `src/agent/orchestrator.rs:125`
  does not match the signature at `src/agent/executor.rs:9-13`, so the code does not say which text that is.
- `get_interactive_elements_in_hashmap` (`src/browser_control/interactive_elements.rs:205-210`) only forwards
  to the scan, so `ElementScan.Scan` stands for both.
- `fill_form_with_data` (`src/browser_control/actions.rs:102-113`) has the same body as `fill_form` and is
  covered by `Actions.FillForm`.
- `go_to_url`, `click_element` and `go_back` are single driver calls. They appear only as outcomes in
  `Executor.RunEffect`.
- The filesystem is abstract. Whether the directory exists, and the outcomes of creating it and of writing the
  file, are parameters (`Actions.FileSystem`).
- A failing driver call yields its error text. The `WebDriverError` kinds are not modelled.
- The `Task` record in `src/agent/task.rs:34-40` has no behaviour and is left out. So are `src/agent/planner.rs`,
  `src/main.rs`, `src/agent/agent.rs`, `src/browser_control/browser_use.rs` and the model files; they are not
  part of this model.
