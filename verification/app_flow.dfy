/** The Flask revision's `/generate` handler: validate the two arguments,
    generate test cases, cut the completion into one record per non-blank
    line, and create one subtask per record, in order. The first failure
    aborts with a 500 error. This revision never checks whether the issue is
    a subtask and never updates a field. */
module AppFlow {
  import opened Wrappers
  import opened PyText
  import opened Segmentation
  import opened Tracker
  import Adf

  /** One test case: the subtask's summary and its description. */
  datatype Record = Record(summary: string, description: string)

  const SummaryLength: nat := 50
  const ProjectSeparator: char := '-'
  const SubtaskType: string := "Sub-task"

  /** A create-issue reply: its status, and whether its body parsed as JSON
      (`response.json()` raises otherwise). */
  datatype CreateReply = CreateReply(status: int, json: bool)

  datatype Body = Added(count: nat) | Error(reason: Failure)

  /** The HTTP status and JSON body the handler answers with. */
  datatype Response = Response(status: int, body: Body)

  /** What one request returns, and the calls it issued in order. */
  datatype Run = Run(response: Response, trace: seq<Call>)

  /** The records of a completion: one per stripped non-blank line, in
      order, with the line as description and its first 50 characters as
      summary. */
  function Records(text: string): (recs: seq<Record>)
    ensures |recs| == |NonBlankLines(text)|
    ensures forall i :: 0 <= i < |recs| ==> recs[i].description == NonBlankLines(text)[i]
    ensures forall i :: 0 <= i < |recs| ==>
      && recs[i].description != []
      && IsStripped(recs[i].description)
      && Newline !in recs[i].description
    ensures forall i :: 0 <= i < |recs| ==>
      && recs[i].summary <= recs[i].description
      && |recs[i].summary| <= SummaryLength
      && (|recs[i].description| <= SummaryLength ==> recs[i].summary == recs[i].description)
      && (|recs[i].description| >= SummaryLength ==> |recs[i].summary| == SummaryLength)
  {
    var lines := NonBlankLines(text);
    seq(|lines|, i requires 0 <= i < |lines| => Record(Take(lines[i], SummaryLength), lines[i]))
  }

  /** `parent_key.split('-')[0]`: the part of the key before its first `-`,
      or the whole key when it has none. */
  function ProjectKey(parentKey: string): (project: string)
    ensures project <= parentKey
    ensures ProjectSeparator !in project
    ensures |project| == |parentKey| || parentKey[|project|] == ProjectSeparator
  {
    FirstPieceIsPrefixBeforeSeparator(parentKey, ProjectSeparator);
    Split(parentKey, ProjectSeparator)[0]
  }

  /** The create-issue request `create_subtask` sends for one record. */
  function SubtaskPayload(parentKey: string, rec: Record): (f: SubtaskFields)
    ensures f.parent == parentKey && f.issueType == SubtaskType
    ensures f.project <= parentKey && ProjectSeparator !in f.project
    ensures |f.project| == |parentKey| || parentKey[|f.project|] == ProjectSeparator
    ensures f.summary == rec.summary && f.description == rec.description
  {
    SubtaskFields(ProjectKey(parentKey), parentKey, rec.summary, rec.description, SubtaskType)
  }

  /** A create-issue call succeeded: `raise_for_status` did not raise and
      the body parsed. */
  predicate Created(reply: CreateReply)
  {
    !RaisesForStatus(reply.status) && reply.json
  }

  /** The error a failed create-issue call raises. */
  function CreateError(reply: CreateReply): Failure
  {
    if RaisesForStatus(reply.status) then CreateFailed(reply.status) else MalformedReply
  }

  datatype CreateRun = CreateRun(issued: seq<Call>, failure: Option<Failure>)

  /** The create-issue requests for a list of records, in record order. */
  function CreateRequests(parentKey: string, recs: seq<Record>): (calls: seq<Call>)
    ensures |calls| == |recs|
    ensures forall i :: 0 <= i < |recs| ==>
      calls[i].CreateIssue? && calls[i].fields == SubtaskPayload(parentKey, recs[i])
  {
    seq(|recs|, i requires 0 <= i < |recs| => CreateIssue(SubtaskPayload(parentKey, recs[i])))
  }

  /** The loop `for tc in test_cases: create_subtask(...)` over the requests
      it sends; `reply(i)` is the reply to the i-th call. The calls go out in
      order, and the first failing one is issued and then ends the loop.
      Defined by the loop's state after all but the last request. */
  function CreateAll(calls: seq<Call>, reply: nat -> CreateReply): (run: CreateRun)
    ensures |run.issued| <= |calls| && run.issued == calls[..|run.issued|]
    ensures run.failure.None? <==> forall i :: 0 <= i < |calls| ==> Created(reply(i))
    ensures run.failure.None? ==> |run.issued| == |calls|
    ensures run.failure.Some? ==>
      && |run.issued| >= 1
      && (forall i :: 0 <= i < |run.issued| - 1 ==> Created(reply(i)))
      && !Created(reply(|run.issued| - 1))
      && run.failure == Some(CreateError(reply(|run.issued| - 1)))
    decreases |calls|
  {
    if |calls| == 0 then CreateRun([], None)
    else
      var n := |calls| - 1;
      var before := CreateAll(calls[..n], reply);
      if before.failure.Some? then
        assert calls[..n][..|before.issued|] == calls[..|before.issued|];
        before
      else if Created(reply(n)) then
        assert calls[..n] + [calls[n]] == calls[..n + 1];
        CreateRun(calls, None)
      else
        assert calls[..n + 1] == calls;
        CreateRun(calls, Some(CreateError(reply(n))))
  }

  /** `not x` for an argument read with `data.get`: absent or empty. */
  predicate Missing(arg: Option<string>)
  {
    arg.None? || arg.value == []
  }

  /** The stages after generation: segment the completion, then create one
      subtask per record. The response is 200 with the record count when
      every create succeeded, else 500 with the first failure. */
  function SegmentAndCreate(parentKey: string, text: string, reply: nat -> CreateReply): (run: Run)
    ensures var recs := Records(text);
      && |run.trace| <= |recs|
      && forall i :: 0 <= i < |run.trace| ==>
           run.trace[i] == CreateIssue(SubtaskPayload(parentKey, recs[i]))
    ensures run.response.status == 200 <==>
      forall i :: 0 <= i < |Records(text)| ==> Created(reply(i))
    ensures run.response.status == 200 ==>
      run.response.body == Added(|Records(text)|) && |run.trace| == |Records(text)|
    ensures run.response.status != 200 ==>
      && run.response.status == 500
      && |run.trace| >= 1
      && (forall i :: 0 <= i < |run.trace| - 1 ==> Created(reply(i)))
      && !Created(reply(|run.trace| - 1))
      && run.response.body == Error(CreateError(reply(|run.trace| - 1)))
  {
    var recs := Records(text);
    var created := CreateAll(CreateRequests(parentKey, recs), reply);
    match created.failure
    case Some(e) => Run(Response(500, Error(e)), created.issued)
    case None => Run(Response(200, Added(|recs|)), created.issued)
  }

  /** The whole request over the replies of the completion call and of the
      create calls. */
  function Generate(issueKey: Option<string>, userStory: Option<string>,
                    completion: CompletionReply, reply: nat -> CreateReply): (run: Run)
    // missing arguments: 400, and no call at all
    ensures Missing(issueKey) || Missing(userStory) ==>
      run == Run(Response(400, Error(MissingInput)), [])
    // otherwise the completion call comes first
    ensures !Missing(issueKey) && !Missing(userStory) ==>
      |run.trace| >= 1 && run.trace[0] == RequestCompletion(userStory.value)
    // a failed completion: 500 with its cause, and no create call
    ensures !Missing(issueKey) && !Missing(userStory) && CompletionText(completion).Err? ==>
      run == Run(Response(500, Error(CompletionText(completion).error)),
                 [RequestCompletion(userStory.value)])
    // after a successful completion the rest is segmenting and creating
    ensures !Missing(issueKey) && !Missing(userStory) && CompletionText(completion).Ok? ==>
      Run(run.response, run.trace[1..]) ==
        SegmentAndCreate(issueKey.value, completion.content.value, reply)
    // success: every record became a subtask and the count says how many
    ensures run.response.status == 200 <==>
      && !Missing(issueKey) && !Missing(userStory)
      && CompletionText(completion).Ok?
      && forall i :: 0 <= i < |Records(completion.content.value)| ==> Created(reply(i))
    ensures run.response.status == 200 ==>
      && run.response.body == Added(|Records(completion.content.value)|)
      && |run.trace| == 1 + |Records(completion.content.value)|
    ensures run.response.status in {200, 400, 500}
  {
    if Missing(issueKey) || Missing(userStory) then
      Run(Response(400, Error(MissingInput)), [])
    else
      var requested := [RequestCompletion(userStory.value)];
      match CompletionText(completion)
      case Err(e) => Run(Response(500, Error(e)), requested)
      case Ok(text) =>
        var rest := SegmentAndCreate(issueKey.value, text, reply);
        assert (requested + rest.trace)[1..] == rest.trace;
        Run(rest.response, requested + rest.trace)
  }

  /** In the trace of a request, every call after the completion is a create,
      one per record in record order, and a failed create is the last call. */
  lemma CreatesFollowRecordOrder(issueKey: Option<string>, userStory: Option<string>,
                                 completion: CompletionReply, reply: nat -> CreateReply)
    requires !Missing(issueKey) && !Missing(userStory) && CompletionText(completion).Ok?
    ensures var run := Generate(issueKey, userStory, completion, reply);
      var recs := Records(completion.content.value);
      && |run.trace| - 1 <= |recs|
      && (forall i :: 1 <= i < |run.trace| ==>
            run.trace[i] == CreateIssue(SubtaskPayload(issueKey.value, recs[i - 1])))
      && (run.response.status == 500 ==>
            && |run.trace| >= 2
            && (forall i :: 0 <= i < |run.trace| - 2 ==> Created(reply(i)))
            && !Created(reply(|run.trace| - 2))
            && run.response.body == Error(CreateError(reply(|run.trace| - 2))))
  {
    var run := Generate(issueKey, userStory, completion, reply);
    var rest := SegmentAndCreate(issueKey.value, completion.content.value, reply);
    assert run.trace[1..] == rest.trace;
    forall i | 1 <= i < |run.trace| ensures run.trace[i] == rest.trace[i - 1] {
      assert run.trace[1..][i - 1] == run.trace[i];
    }
  }

  /** The two revisions cut a completion the same way: the descriptions of
      the subtasks this revision creates are the paragraphs the FastAPI
      revision writes for the same completion, which it trims first. */
  lemma RecordsMatchFieldParagraphs(text: string)
    ensures var recs := Records(text);
      var paras := Adf.ParagraphTexts(Adf.ToAdf(Strip(text)));
      |recs| == |paras| && forall i :: 0 <= i < |recs| ==> recs[i].description == paras[i]
  {
    NonBlankLinesIgnoresOuterWhitespace(text);
    Adf.ToAdfParagraphTexts(Strip(text));
  }
}
