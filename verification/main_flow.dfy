/** The FastAPI revision's `/generate` handler: check that the issue is not
    a subtask, generate test cases, write them into the issue's rich-text
    field, and answer with a preview. Every raised exception becomes an
    error payload. This revision never creates subtasks. */
module MainFlow {
  import opened Wrappers
  import opened PyText
  import opened Segmentation
  import Adf
  import opened Tracker

  datatype Request = Request(issueKey: string, userStory: string)

  /** The issue lookup's reply: its status, and the issue type's `subtask`
      flag when the body has one. */
  datatype IssueReply = IssueReply(status: int, subtask: Option<bool>)

  datatype Response =
    | Saved(key: string, preview: string)
    | Refused(reason: Failure)

  /** What one request returns, and the calls it issued in order. */
  datatype Run = Run(response: Response, trace: seq<Call>)

  const PreviewLength: nat := 300
  const Ellipsis: string := "..."

  /** The preview in the success message: at most the first 300 characters
      of the text, then an ellipsis. */
  function Preview(text: string): (p: string)
    ensures |p| == (if |text| < PreviewLength then |text| else PreviewLength) + |Ellipsis|
    ensures |p| <= PreviewLength + |Ellipsis|
    ensures p[..|p| - |Ellipsis|] <= text
    ensures p[|p| - |Ellipsis|..] == Ellipsis
    ensures |text| <= PreviewLength ==> p == text + Ellipsis
  {
    Take(text, PreviewLength) + Ellipsis
  }

  /** `is_subtask`: the subtask flag of the issue, or an error naming the key
      when the lookup does not answer 200. */
  function CheckSubtask(key: string, reply: IssueReply): (r: Result<bool, Failure>)
    ensures reply.status != 200 ==> r == Err(LookupFailed(key))
    ensures r.Ok? <==> reply.status == 200 && reply.subtask.Some?
    ensures r.Ok? ==> r.value == reply.subtask.value
  {
    if reply.status != 200 then Err(LookupFailed(key))
    else if reply.subtask.None? then Err(MalformedReply)
    else Ok(reply.subtask.value)
  }

  /** The field update request `update_jira_field` sends for `text`. */
  function UpdateCall(key: string, text: string): (c: Call)
    ensures c.UpdateField? && c.key == key && c.field == Adf.GeneratedTestCasesField
    ensures Adf.ParagraphTexts(c.doc) == NonBlankLines(text)
  {
    Adf.ToAdfParagraphTexts(text);
    UpdateField(key, Adf.GeneratedTestCasesField, Adf.ToAdf(text))
  }

  /** The last stage: write the trimmed completion into the field, then
      answer. Only a 204 reply counts as saved. */
  function Persist(key: string, text: string, updateStatus: int): (run: Run)
    ensures run.trace == [UpdateCall(key, text)]
    ensures run.response.Saved? <==> updateStatus == 204
    ensures updateStatus != 204 ==> run.response == Refused(UpdateFailed(updateStatus))
    ensures run.response.Saved? ==> run.response == Saved(key, Preview(text))
  {
    var updated := [UpdateCall(key, text)];
    if updateStatus != 204 then Run(Refused(UpdateFailed(updateStatus)), updated)
    else Run(Saved(key, Preview(text)), updated)
  }

  /** The stages after the subtask check: generate, then persist. A failed
      generation ends the run before any write. */
  function GenerateAndPersist(req: Request, completion: CompletionReply, updateStatus: int): (run: Run)
    ensures 1 <= |run.trace| <= 2 && run.trace[0] == RequestCompletion(req.userStory)
    ensures |run.trace| == 2 <==> CompletionText(completion).Ok?
    ensures |run.trace| == 1 ==> run.response == Refused(CompletionText(completion).error)
    ensures |run.trace| == 2 ==>
      Run(run.response, run.trace[1..]) ==
        Persist(req.issueKey, Strip(completion.content.value), updateStatus)
  {
    var generated := [RequestCompletion(req.userStory)];
    match CompletionText(completion)
    case Err(e) => Run(Refused(e), generated)
    case Ok(raw) =>
      var rest := Persist(req.issueKey, Strip(raw), updateStatus);
      assert (generated + rest.trace)[1..] == rest.trace;
      Run(rest.response, generated + rest.trace)
  }

  /** The whole request as a state machine over the replies of the three
      calls: lookup, generate, update, respond. Any step that fails ends the
      run with an error and issues nothing further. */
  function Generate(req: Request, issue: IssueReply, completion: CompletionReply, updateStatus: int): (run: Run)
    // the lookup always comes first and at most three calls are made
    ensures 1 <= |run.trace| <= 3 && run.trace[0] == FetchIssue(req.issueKey)
    ensures |run.trace| >= 2 ==> run.trace[1] == RequestCompletion(req.userStory)
    // a failed lookup names the key and stops everything
    ensures issue.status != 200 ==>
      run == Run(Refused(LookupFailed(req.issueKey)), [FetchIssue(req.issueKey)])
    // a subtask is refused, naming the key, before any completion or update
    ensures issue.status == 200 && issue.subtask == Some(true) ==>
      run == Run(Refused(TargetIsSubtask(req.issueKey)), [FetchIssue(req.issueKey)])
    // generation is requested exactly when the issue is a readable non-subtask
    ensures |run.trace| >= 2 <==> issue.status == 200 && issue.subtask == Some(false)
    // the update happens after generation, exactly when generation succeeded,
    // and writes the trimmed completion
    ensures |run.trace| == 3 <==>
      issue.status == 200 && issue.subtask == Some(false) && CompletionText(completion).Ok?
    ensures |run.trace| == 3 ==>
      run.trace[2] == UpdateCall(req.issueKey, Strip(completion.content.value))
    // a failed generation is reported with its cause
    ensures |run.trace| == 2 ==> run.response == Refused(CompletionText(completion).error)
    // success only when every step succeeded and the update answered 204
    ensures run.response.Saved? <==> |run.trace| == 3 && updateStatus == 204
    ensures |run.trace| == 3 && updateStatus != 204 ==>
      run.response == Refused(UpdateFailed(updateStatus))
    ensures run.response.Saved? ==>
      run.response.key == req.issueKey &&
      run.response.preview == Preview(Strip(completion.content.value))
  {
    var key := req.issueKey;
    var lookup := [FetchIssue(key)];
    match CheckSubtask(key, issue)
    case Err(e) => Run(Refused(e), lookup)
    case Ok(isSubtask) =>
      if isSubtask then Run(Refused(TargetIsSubtask(key)), lookup)
      else
        var rest := GenerateAndPersist(req, completion, updateStatus);
        assert (lookup + rest.trace)[1..] == rest.trace;
        Run(rest.response, lookup + rest.trace)
  }

  /** The document written to the issue holds one paragraph per non-blank
      line of the completion, in order: trimming it first changes nothing. */
  lemma WrittenParagraphsAreCompletionLines(req: Request, issue: IssueReply, completion: CompletionReply, updateStatus: int)
    requires |Generate(req, issue, completion, updateStatus).trace| == 3
    ensures var call := Generate(req, issue, completion, updateStatus).trace[2];
      Adf.ParagraphTexts(call.doc) == NonBlankLines(completion.content.value)
  {
    NonBlankLinesIgnoresOuterWhitespace(completion.content.value);
  }
}
