# Jira test-case generator: verified model of the text handling and request flow

The service takes a Jira issue key and a user story, asks a chat-completion
service for test cases, and writes the result back to Jira. The repository
has two divergent revisions of the request handler, modelled separately:

- **FastAPI revision** (`main.py`): refuses issues that are subtasks, trims
  the completion, converts it into an Atlassian Document Format (ADF) `doc`
  with one `paragraph` per non-blank line, writes it to the custom field
  `customfield_10169`, and answers with a message and a 300-character preview.
  Any raised exception becomes an `{error}` payload. It never creates subtasks.
- **Flask revision** (`app.py`): rejects a missing or empty `issue_key` or
  `user_story` with a 400, cuts the completion into one record per stripped
  non-blank line (summary = first 50 characters, description = whole line),
  and creates one `Sub-task` per record, in order, under the given parent.
  The first failure aborts with a 500. It never checks whether the issue is a
  subtask and never updates a field.

Network calls are not performed. Each call is an oracle reply: a status code
plus what could be read from the body. Each handler is a pure function from
the request and the replies to the response and the trace of calls it issued.

Modules, one per concern:

| file | module | what it holds |
|---|---|---|
| `wrappers.dfy` | `Wrappers` | `Option`, `Result` |
| `pytext.dfy` | `PyText` | Python `isspace`, `strip`, `split(sep)`, `sep.join`, `s[:n]`, and their laws |
| `segmentation.dfy` | `Segmentation` | the line segmentation both revisions use, and its characterisation |
| `adf.dfy` | `Adf` | the ADF document and the conversion of `update_jira_field` |
| `tracker.dfy` | `Tracker` | outgoing calls, failure causes, `raise_for_status`, completion replies |
| `main_flow.dfy` | `MainFlow` | the FastAPI handler as a staged state machine |
| `app_flow.dfy` | `AppFlow` | the Flask handler: records, subtask payloads, the create loop |

Python's `str.strip()` is modelled with Python 3's own whitespace table. That
table is the ASCII controls 9-13 and 28-31, space, U+0085, U+00A0, U+1680,
U+2000-U+200A, U+2028, U+2029, U+202F, U+205F and U+3000. Dafny characters
are code points, so slicing counts code points as Python does.

## Model

| member | source | states |
|---|---|---|
| `PyText.Strip` | main.py:63 | the result has no whitespace at either end, is no longer than the input, and is empty exactly when the input is all whitespace |
| `PyText.StripPosition` | main.py:63 | the stripped text is a contiguous piece of the input with only whitespace before and after it |
| `PyText.StripIdempotent` | main.py:67 | stripping text that was already stripped at line 63 changes nothing |
| `PyText.Split` | app.py:72 | `split('\n')` always gives at least one piece, and no piece contains the separator |
| `PyText.JoinSplit` | app.py:72 | joining the pieces of a split with the separator gives the original text back |
| `PyText.SplitJoin` | app.py:72 | splitting separator-free pieces joined by the separator gives the pieces back |
| `PyText.SplitAppend` | app.py:72 | appending a newline to the text adds one empty piece; appending any other character extends the last piece |
| `PyText.FirstPieceIsPrefixBeforeSeparator` | app.py:49 | the first piece of `split('-')` is the prefix before the first `-`, or the whole key when there is none |
| `PyText.Take` | app.py:74 | `s[:n]` is a prefix of `s` of length `min(n, len(s))` |
| `Segmentation.Clean` | app.py:72 | the comprehension keeps at most as many lines as it is given, each non-empty and with no whitespace at its ends |
| `Segmentation.NonBlankLines` | app.py:72 | every segment is non-empty, has no whitespace at its ends, and spans no newline |
| `Segmentation.KeptIndices` | app.py:72 | the segments are an order-preserving selection of exactly the non-blank lines, each stripped; their count is the number of non-blank lines |
| `Segmentation.NonBlankLinesIdempotent` | main.py:67-82 | joining the segments with newlines and segmenting again gives the same segments |
| `Segmentation.NonBlankLinesIgnoresOuterWhitespace` | main.py:67 | stripping the whole text before splitting it yields the same segments as not stripping it |
| `Adf.ParagraphsOf` | main.py:74-82 | the loop emits one single-run paragraph per kept line, in order, holding the stripped line |
| `Adf.ToAdf` | main.py:67-82 | the document has version 1 and one single-text-run paragraph per non-blank line of the text, in order |
| `Adf.ToAdfParagraphTexts` | main.py:74-82 | the paragraph texts are exactly the segments; none is empty, has whitespace at its ends, or spans a newline |
| `Adf.ToAdfIdempotent` | main.py:67-82 | converting the newline-joined paragraph texts again gives the same document |
| `Tracker.CompletionText` | main.py:62-63 | generation succeeds exactly when the status does not raise and the body has content; a raising status is reported with that status |
| `MainFlow.CheckSubtask` | main.py:37-39 | a lookup status other than 200 is an error naming the key; otherwise the result is the issue's subtask flag |
| `MainFlow.UpdateCall` | main.py:67-89 | the update goes to the given key and field, and its document's paragraphs are the segments of the text |
| `MainFlow.Preview` | main.py:117 | the preview is a prefix of the text of length `min(300, len)` followed by `...`, at most 303 characters, and the whole text plus `...` when it is short |
| `MainFlow.Persist` | main.py:98-99 | the run is saved exactly when the update answered 204; any other status is an error carrying that status |
| `MainFlow.GenerateAndPersist` | main.py:110-118 | the completion call comes first; the update is issued exactly when generation succeeded, and it writes the trimmed completion |
| `MainFlow.Generate` | main.py:102-122 | lookup failure or a subtask yields an error naming the key with no further call; success exactly when lookup gave 200 and not a subtask, generation succeeded and the update answered 204; the update follows generation and writes the trimmed text |
| `MainFlow.WrittenParagraphsAreCompletionLines` | main.py:63-82 | the written document's paragraphs are the non-blank lines of the untrimmed completion |
| `AppFlow.Records` | app.py:72-74 | one record per segment, in order; description = the whole stripped line; summary = a prefix of at most 50 characters, the whole line when it is at most 50 long |
| `AppFlow.ProjectKey` | app.py:49 | the project key is the prefix of the parent key before the first `-`, or the whole key |
| `AppFlow.SubtaskPayload` | app.py:46-55 | parent is the given key, issue type is `Sub-task`, the project key is the prefix before the first `-`, summary and description are the record's |
| `AppFlow.CreateAll` | app.py:73-74 | the calls issued are a prefix of the requests in order; no failure exactly when every reply succeeded, and then all were issued; otherwise the failing call is the last one issued and its error is reported |
| `AppFlow.SegmentAndCreate` | app.py:72-76 | the creates follow the records in order; status 200 with `count` = number of records exactly when every create succeeded; otherwise 500 with the first failure, which is the last call |
| `AppFlow.Generate` | app.py:62-78 | missing or empty arguments give a 400 with no calls; status 200 exactly when generation and every create succeeded, with `count` = number of records; a failure gives a 500 and no call after the failing one |
| `AppFlow.CreatesFollowRecordOrder` | app.py:70-78 | after the completion call every call is a create, one per record in record order; on a 500 from a create every earlier create succeeded and the failing one is the last call |
| `AppFlow.RecordsMatchFieldParagraphs` | app.py:72-74 | the subtask descriptions are the same lines the other revision writes as paragraphs for the same completion |

## Left out

- HTTP transport: URLs, headers, basic and bearer auth, JSON (de)serialisation (main.py:35-36, 54-61, 84-96; app.py:33-43, 57-59). Replies are oracle values: a status plus an `Option` or flag for the parts of the body that are read.
- The completion prompt, model name and sampling parameters (main.py:43-52; app.py:22-31): constant data. The completion call records only the user story.
- FastAPI/Flask routing, pydantic's type checks, the `/panel` page, the iframe header and the server bootstrap (app.py:80-92): framework plumbing. In `app.py` only a request body that is not a JSON object fails outside the `try` (`data.get`, app.py:64-65); it is not modelled. Arguments are modelled as `Option<string>`, so non-string JSON values are not modelled either: a truthy non-string passes the check at app.py:67 and is handled inside the `try`.
- Environment and configuration loading (main.py:10-27; app.py:8-19): read-only globals with no behaviour.
- `traceback` printing (main.py:121) and the exact wording of error messages: each `Failure` keeps only the issue key or status the message names; `response.text` in the update error is dropped.
- HTTP status of the FastAPI error payloads: that revision returns its `{error}` dictionaries with the framework's default status, which the model does not represent.
- The front-end script `static/script.js`: UI only.
- The JSON value of the subtask flag is modelled as a boolean or absent; Python truthiness of other JSON values (`null`, numbers) is not modelled.
- Python strings may hold lone surrogate code points, which Dafny `char` cannot; text is modelled as sequences of Unicode scalar values.
