/**
 * The task agent's side of `task.rs`: the process-wide history store, which is created on the
 * first read and only ever grows, and the clean-up applied to the language model's reply.
 */
module TaskStore {
  import opened Wrappers
  import opened Strings

  /** The history cell: absent until the first read creates it, then the entries in order. */
  type Store = Option<seq<string>>

  const NotInitialized := "Task history not initialized"

  /** `get_task_history`: a copy of the history, creating an empty one on the first call. */
  function GetHistory(s: Store): (r: (Store, seq<string>))
    ensures r.0.Some? && r.1 == r.0.value
    ensures s.Some? ==> r.0 == s
    ensures s.None? ==> r.1 == []
  {
    match s
    case None => (Some([]), [])
    case Some(h) => (s, h)
  }

  /** `add_task_to_history`: appends one entry, or fails and leaves the store absent. */
  function AddToHistory(s: Store, entry: string): (r: (Store, Outcome<string>))
    ensures s.None? ==> r == (None, Fail(NotInitialized))
    ensures s.Some? ==> r.1 == Pass && r.0.Some?
    ensures s.Some? ==> |r.0.value| == |s.value| + 1 && r.0.value[..|s.value|] == s.value
    ensures s.Some? ==> r.0.value[|s.value|] == entry
  {
    match s
    case None => (None, Fail(NotInitialized))
    case Some(h) => (Some(h + [entry]), Pass)
  }

  /** A call on the store. */
  datatype Call = Read | Append(entry: string)

  /** The store after a sequence of calls. */
  function Run(s: Store, calls: seq<Call>): Store
    decreases |calls|
  {
    if calls == [] then s
    else
      var next := match calls[0]
        case Read => GetHistory(s).0
        case Append(e) => AddToHistory(s, e).0;
      Run(next, calls[1..])
  }

  /** The entries appended by a sequence of calls, in order. */
  function Appended(calls: seq<Call>): seq<string>
    decreases |calls|
  {
    if calls == [] then []
    else (if calls[0].Append? then [calls[0].entry] else []) + Appended(calls[1..])
  }

  /** Once created, the store keeps every earlier entry and gains exactly the appended ones. */
  lemma {:induction false} RunExtends(h: seq<string>, calls: seq<Call>)
    ensures Run(Some(h), calls) == Some(h + Appended(calls))
    decreases |calls|
  {
    if calls != [] {
      match calls[0]
      case Read =>
        assert Run(Some(h), calls) == Run(Some(h), calls[1..]);
        RunExtends(h, calls[1..]);
        assert Appended(calls) == [] + Appended(calls[1..]) == Appended(calls[1..]);
      case Append(e) =>
        assert Run(Some(h), calls) == Run(Some(h + [e]), calls[1..]);
        RunExtends(h + [e], calls[1..]);
        assert Appended(calls) == [e] + Appended(calls[1..]);
        assert h + [e] + Appended(calls[1..]) == h + Appended(calls);
    } else {
      assert h + Appended(calls) == h;
    }
  }

  /** The index of the first read, if any. */
  function FirstRead(calls: seq<Call>): (r: Option<nat>)
    ensures r.Some? ==> r.value < |calls| && calls[r.value].Read?
    ensures r.Some? ==> forall i :: 0 <= i < r.value ==> calls[i].Append?
    ensures r.None? ==> forall i :: 0 <= i < |calls| ==> calls[i].Append?
    decreases |calls|
  {
    if calls == [] then None
    else if calls[0].Read? then Some(0)
    else
      match FirstRead(calls[1..])
      case None => None
      case Some(k) => Some(k + 1)
  }

  /**
   * Starting from the absent store, appends before the first read are lost; from the first
   * read on the store holds exactly the entries appended after it.
   */
  lemma {:induction false} RunFromAbsent(calls: seq<Call>)
    ensures FirstRead(calls).None? ==> Run(None, calls) == None
    ensures FirstRead(calls).Some? ==>
      Run(None, calls) == Some(Appended(calls[FirstRead(calls).value + 1..]))
    decreases |calls|
  {
    if calls != [] {
      if calls[0].Read? {
        RunExtends([], calls[1..]);
        assert [] + Appended(calls[1..]) == Appended(calls[1..]);
      } else {
        RunFromAbsent(calls[1..]);
        if FirstRead(calls[1..]).Some? {
          var k := FirstRead(calls[1..]).value;
          assert calls[k + 1 + 1..] == calls[1..][k + 1..];
        }
      }
    }
  }

  // ------------------------------------------------------------------ replies

  /**
   * The reply clean-up: remove every "```json", then every "```", then every newline. The
   * executor and `extract_information` both read the reply through it.
   */
  function CleanReply(reply: string): (r: string)
    ensures '\n' !in r
    ensures forall i :: 0 <= i < |r| ==> r[i] in reply
    ensures Subsequence(r, reply)
  {
    var noJsonFence := ReplaceAll(reply, "```json", "");
    var noFence := ReplaceAll(noJsonFence, "```", "");
    ReplaceAllChars(reply, "```json", "");
    ReplaceAllChars(noJsonFence, "```", "");
    ReplaceAllChars(noFence, "\n", "");
    RemoveCharLeavesNone(noFence, '\n');
    ReplaceRemoves(reply, "```json");
    ReplaceRemoves(noJsonFence, "```");
    ReplaceRemoves(noFence, "\n");
    SubsequenceTrans(noFence, noJsonFence, reply);
    SubsequenceTrans(ReplaceAll(noFence, "\n", ""), noFence, reply);
    ReplaceAll(noFence, "\n", "")
  }

  /** A reply with no backtick and no newline passes through unchanged. */
  lemma CleanReplyPlain(reply: string)
    requires '`' !in reply && '\n' !in reply
    ensures CleanReply(reply) == reply
  {
    if Contains(reply, "```json") { ContainsHead(reply, "```json"); }
    ReplaceAbsent(reply, "```json", "");
    if Contains(reply, "```") { ContainsHead(reply, "```"); }
    ReplaceAbsent(reply, "```", "");
    if Contains(reply, "\n") { ContainsHead(reply, "\n"); }
    ReplaceAbsent(reply, "\n", "");
  }

  /** A reply without backticks loses exactly its newlines: the rest is kept, in order. */
  lemma CleanReplyNoFence(reply: string)
    requires '`' !in reply
    ensures CleanReply(reply) == DropChar(reply, '\n')
  {
    if Contains(reply, "```json") { ContainsHead(reply, "```json"); }
    ReplaceAbsent(reply, "```json", "");
    if Contains(reply, "```") { ContainsHead(reply, "```"); }
    ReplaceAbsent(reply, "```", "");
    ReplaceCharIsDrop(reply, '\n');
  }

  /**
   * The reply the prompts ask for, a JSON fence, the JSON text over several lines, and a closing
   * fence, comes out as the JSON text on one line.
   */
  lemma CleanReplyFenced(json: string)
    requires '`' !in json
    ensures CleanReply("```json" + json + "```") == DropChar(json, '\n')
  {
    ReplaceOpening("```json", json, "```");
    ReplaceClosing(json, "```");
    ReplaceCharIsDrop(json, '\n');
  }

  /**
   * `task_agent`: asks the model with the task prompt followed by the last step and returns the
   * cleaned reply; a failed request reads as an empty reply, so the call never fails.
   */
  function TaskAgent(taskPrompt: string, lastStep: string, model: string -> Result<string, string>): (r: Result<string, string>)
    ensures r.Success?
    ensures '\n' !in r.value
    ensures model(taskPrompt + lastStep).Failure? ==> r.value == ""
    ensures model(taskPrompt + lastStep).Success? ==> r.value == CleanReply(model(taskPrompt + lastStep).value)
  {
    var reply := match model(taskPrompt + lastStep)
      case Success(text) => text
      case Failure(_) => "";
    assert CleanReply("") == "";
    Success(CleanReply(reply))
  }
}
