/** The external calls both revisions make, as abstract outcomes. No call is
    performed: each reply is an oracle value (a status code and what could
    be read from the body), and each orchestration returns the list of calls
    it issued, in order. */
module Tracker {
  import opened Wrappers
  import Adf

  /** The fields of a create-issue request for a subtask. */
  datatype SubtaskFields = SubtaskFields(
    project: string,
    parent: string,
    summary: string,
    description: string,
    issueType: string)

  /** One outgoing request. */
  datatype Call =
    | FetchIssue(key: string)                                   // GET /rest/api/3/issue/{key}
    | RequestCompletion(userStory: string)                      // POST to the completion service
    | UpdateField(key: string, field: string, doc: Adf.Doc)     // PUT /rest/api/3/issue/{key}
    | CreateIssue(fields: SubtaskFields)                        // POST /rest/api/3/issue

  /** Why a request ended in an error payload. Exact message wording is not
      modelled; each case keeps the issue key or status the message names. */
  datatype Failure =
    | MissingInput                  // an argument was absent or empty
    | LookupFailed(key: string)     // the issue lookup did not answer 200
    | TargetIsSubtask(key: string)  // the issue is itself a subtask
    | CompletionFailed(status: int) // the completion call raised for its status
    | UpdateFailed(status: int)     // the field update did not answer 204
    | CreateFailed(status: int)     // a create-issue call raised for its status
    | MalformedReply                // a reply body lacked the expected JSON

  /** `requests.Response.raise_for_status()` raises exactly for client and
      server error codes. */
  predicate RaisesForStatus(status: int)
  {
    400 <= status < 600
  }

  /** A completion-service reply: its status and the first choice's message
      content, absent when the body does not have that shape. */
  datatype CompletionReply = CompletionReply(status: int, content: Option<string>)

  /** Reading the generated text out of a completion reply: an error when
      `raise_for_status` raises, or when the body lacks the content. */
  function CompletionText(reply: CompletionReply): (r: Result<string, Failure>)
    ensures r.Ok? <==> !RaisesForStatus(reply.status) && reply.content.Some?
    ensures r.Ok? ==> r.value == reply.content.value
    ensures RaisesForStatus(reply.status) ==> r == Err(CompletionFailed(reply.status))
    ensures !RaisesForStatus(reply.status) && reply.content.None? ==> r == Err(MalformedReply)
  {
    if RaisesForStatus(reply.status) then Err(CompletionFailed(reply.status))
    else if reply.content.None? then Err(MalformedReply)
    else Ok(reply.content.value)
  }
}
