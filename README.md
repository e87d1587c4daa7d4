# autoswe, modelled in Dafny

autoswe is a set of small command-line tools around an agent SDK and the GitHub
`gh` CLI. This project models the parts that make decisions once the external
calls are given as inputs:

- **review** (`review.dfy`, module `Review`): finds the latest "@codex review"
  comment and the latest commit of a pull request, decides whether a new review
  request is needed, builds the `gh` argument lists, and picks the action per
  pull request (skip, dry run, comment or decline).
- **structured output** (`structured.dfy`, module `Structured`): merges the
  JSON-schema output directive into the agent options. The blocking query keeps
  the last result message whose `structured_output` is truthy and validates it.
  The streaming query pairs each message with its validated record or None.
- **streaming display** (`streaming.dfy`, module `Streaming`): `truncate`, the
  length bound of `format_tool_input`, and the text that `print_message` appends
  to the caller's list.
- **refactor loop** (`refactor.dfy`, module `Refactor`): `run_claude_code` joins
  the collected text of one agent session. `autorefactor` runs sessions until one
  prints the "no refactoring needed" marker, at most `max_iterations` times.

Shared pieces: `common.dfy` (Option, Result, Max, Min), `strings.dfy` (Python's
`str` ordering, `in`, `"".join`, `str(int)`) and `messages.dfy` (the SDK's
message and block kinds, and JSON truthiness).

External collaborators become parameters:

- the output of `gh pr list` is the `prs` list;
- the output of `gh pr view` is the function `fetch`;
- the user's answer to the confirmation prompt is the function `answer`;
- the agent's reply to a query is the function `query`, or the message stream of
  each refactoring session (`sessions`);
- the schema class is a `Schema` value: its JSON schema and its validation function;
- `json.dumps` and `str` of a tool input are the functions `dumps` and `repr`.

Timestamps are compared as strings, as the code does. `Strings.Less` is Python's
code-point lexicographic order, and it is proved to be a strict total order.
Because of that, the greatest timestamp is unique and does not depend on the
order of the list.

Two behaviours of the code a reader might not expect, which the model follows:

- The blocking query keeps the payload of the *last* result message that has a
  truthy `structured_output`, whichever message that is. A falsy payload such as
  `{}` counts as missing, as if no payload had been sent.
- The docstring of `structured_query_stream` (src/autoswe/structured.py:104-106)
  says the record is None "until the final message". The code pairs *every*
  result message that has a truthy payload with its validated record, so more
  than one pair can hold a record. A validation error raised mid-stream ends the
  stream after the pairs already yielded. This is `StreamOutcome.failure`.

## Model

| member | source | states |
|---|---|---|
| `Strings.LessIrreflexive` | src/autoswe/review.py:91 | no timestamp is strictly greater than itself, so an equal commit time is not newer |
| `Strings.LessTransitive` | src/autoswe/review.py:66 | Python's string `>` is transitive |
| `Strings.LessTotal` | src/autoswe/review.py:76 | two distinct strings are always ordered one way or the other |
| `Strings.LessAsymmetric` | src/autoswe/review.py:91 | `a < b` excludes `b < a` |
| `Strings.ContainsIff` | src/autoswe/review.py:64 | `sub in s` holds iff `sub` occurs in `s` at some index |
| `Strings.ContainsExtend` | src/autoswe/refactor.py:47 | a substring of a part stays a substring of any text around it |
| `Strings.ConcatAppend` | src/autoswe/refactor.py:29 | joining two lists of fragments is joining each and concatenating |
| `Strings.ContainsInConcat` | src/autoswe/refactor.py:47 | the marker in any collected fragment is in the joined output |
| `Strings.NatToStringDigits` | src/autoswe/review.py:45 | `str` of a natural number is a non-empty run of digits that reads back to the number |
| `Strings.IntToStringRoundTrip` | src/autoswe/review.py:45 | `str(pr_number)` reads back to `pr_number`, including negative numbers |
| `Review.LatestSpec` | src/autoswe/review.py:62-67 | the running scan yields None iff no stamp is present (non-empty); otherwise it yields a present stamp that no present stamp exceeds |
| `Review.LatestUnique` | src/autoswe/review.py:66 | at most one stamp is greatest |
| `Review.LatestOrderFree` | src/autoswe/review.py:63-67 | the scan's result depends only on which stamps occur |
| `Review.ReviewStampsMembers` | src/autoswe/review.py:64-65 | a comment contributes its `createdAt` iff its body (empty when missing) contains the request |
| `Review.CommitStampsMembers` | src/autoswe/review.py:75 | each commit contributes its `committedDate` |
| `Review.GetLastCodexReviewTime` | src/autoswe/review.py:60-68 | None iff no request comment has a non-empty `createdAt`; otherwise the `createdAt` of a request comment that no request comment's `createdAt` exceeds |
| `Review.GetLatestCommitTime` | src/autoswe/review.py:71-78 | None iff no commit has a non-empty `committedDate`; otherwise the greatest such date |
| `Review.SearchesOrderFree` | src/autoswe/review.py:63-77 | both searches give the same result for any permutation of their input |
| `Review.NeedsReview` | src/autoswe/review.py:81-94 | the reason is one of the three messages, and a review is needed iff the reason is not "Already reviewed" |
| `Review.NeedsReviewWithoutRequest` | src/autoswe/review.py:86-88 | with no dated review-request comment the verdict is (True, "No '@codex review' comment found"), whatever the commits |
| `Review.NeedsReviewAfter` | src/autoswe/review.py:90-94 | after a review request at `t`, the verdict is (True, "New commits after last review") iff some commit date is strictly after `t`, else (False, "Already reviewed, no new commits") |
| `Review.ReviewAfterLatestCommit` | src/autoswe/review.py:90-94 | a review request strictly later than the latest commit gives (False, "Already reviewed, no new commits") |
| `Review.SameTimestampAlreadyReviewed` | src/autoswe/review.py:90-94 | a latest commit at exactly the review time gives (False, "Already reviewed, no new commits") |
| `Review.WithRepo` | src/autoswe/review.py:37-38 | an argument list is its fixed prefix, followed by `--repo repo` exactly when `repo` is non-empty |
| `Review.ReviewRequestedArgs` | src/autoswe/review.py:29-38 | the `gh pr list` arguments are the search prefix plus the optional repo flag |
| `Review.PrDetailsArgs` | src/autoswe/review.py:45-47 | the `gh pr view` arguments are the view prefix with the PR number plus the optional repo flag |
| `Review.PrCommentArgs` | src/autoswe/review.py:54-56 | the `gh pr comment` arguments are the comment prefix with number and body plus the optional repo flag |
| `Review.CommentArgsDistinct` | src/autoswe/review.py:54 | comment commands for different PR numbers differ |
| `Review.ChooseAction` | src/autoswe/review.py:140-154 | a PR not needing review is skipped; a dry run never comments; otherwise a comment is posted iff `--auto` is set or the user confirmed, and a refused prompt declines |
| `Review.AnswerOnlyMattersWhenPrompted` | src/autoswe/review.py:148-150 | the user's answer changes nothing unless review is needed, no dry run and no `--auto` |
| `Review.Actions` | src/autoswe/review.py:128-154 | one action per listed pull request |
| `Review.ActionsAt` | src/autoswe/review.py:136-150 | the i-th action is the choice for the i-th PR's verdict and the i-th answer |
| `Review.ActionsStep` | src/autoswe/review.py:128 | the actions of one more PR extend the earlier actions by that PR's action |
| `Review.LoopCommandsSnoc` | src/autoswe/review.py:128-154 | the commands for one more PR extend the earlier commands by that PR's commands |
| `Review.LoopCommandsStep` | src/autoswe/review.py:136-151 | one loop iteration appends exactly that PR's `gh` commands |
| `Review.PrCommandsComment` | src/autoswe/review.py:148-151 | a PR's commands include the comment command iff its action was to comment |
| `Review.LoopCommandsComments` | src/autoswe/review.py:148-151 | a `gh pr comment` command is issued iff some PR's action was to comment, with that PR's number |
| `Review.HandlePr` | src/autoswe/review.py:129-154 | for one PR: always fetch details, then act on the verdict; the comment command is issued only when the action is to comment |
| `Review.ReviewPrs` | src/autoswe/review.py:120-154 | the actions follow the per-PR choice in order, and the `gh` commands are the list command, then each PR's view and optional comment command |
| `Review.NoCommentWithoutNeedOrOnDryRun` | src/autoswe/review.py:140-151 | in a dry run, or when no PR needs review, no comment command is issued |
| `Structured.MergeOptions` | src/autoswe/structured.py:18-32 | `output_format` becomes `{"type": "json_schema", "schema": ...}`; every other field is the caller's (defaults when there are none) |
| `Structured.MergeOverwrites` | src/autoswe/structured.py:23-32 | merging again overwrites only the directive, so a repeated merge is idempotent |
| `Structured.LastStructuredOutputSpec` | src/autoswe/structured.py:77-81 | nothing is selected iff no message is a result with a truthy payload; otherwise the last such message's payload is selected |
| `Structured.NonCarrierIgnored` | src/autoswe/structured.py:78 | messages that are not results with a truthy payload do not affect the selection, wherever they are |
| `Structured.StructuredQuery` | src/autoswe/structured.py:35-84 | fails with "no structured output" iff no message carries a payload; otherwise validates the last carried payload and returns the record or the validation error |
| `Structured.StreamPairs` | src/autoswe/structured.py:120-126 | one pair per message, in order, with the message first; the second part is the validated record iff the message carries a payload, else None; a failed validation ends the stream at that message with its error |
| `Structured.StructuredQueryStream` | src/autoswe/structured.py:87-126 | on the stream of the query with the merged options: one pair per message in order, a record iff the message carries a payload (its validated record), and a failed validation ends the stream at that message with its error |
| `Structured.StreamCompletesThenQueryAgrees` | src/autoswe/structured.py:74-84 | when the stream runs to its end, the blocking form fails iff no payload was carried, and otherwise returns the record paired with the last carrier |
| `Streaming.Truncate` | src/autoswe/streaming.py:20-24 | text that fits is unchanged; longer text is its prefix slice plus "...", of length exactly `max_length + 3` for a non-negative limit; the result keeps the first `min(len, max_length)` characters |
| `Streaming.FormatToolInput` | src/autoswe/streaming.py:27-33 | the result has at most 503 characters on both the JSON and the fallback branch, and short output is unchanged |
| `Streaming.BlockTextsAppend` | src/autoswe/streaming.py:49-53 | the texts of consecutive blocks are collected in content order |
| `Streaming.BlockTextsExactly` | src/autoswe/streaming.py:48-79 | a string is collected iff it is the text of a TextBlock; thinking, tool-use and tool-result blocks add nothing |
| `Streaming.TextCollector.Append` | src/autoswe/streaming.py:53 | `list.append` adds one item at the end and keeps the rest |
| `Streaming.PrintMessage` | src/autoswe/streaming.py:36-90 | the caller's list keeps its entries and gains the text of each TextBlock in order (assistant message) or the non-empty result (result message); nothing else; nothing without a list |
| `Refactor.RunClaudeCode` | src/autoswe/refactor.py:21-29 | returns the join, in arrival order, of every fragment `print_message` collects from the stream |
| `Refactor.SessionOutputSnoc` | src/autoswe/refactor.py:25-29 | each further message appends exactly its collected text to the end of the returned output |
| `Refactor.TranscriptHas` | src/autoswe/refactor.py:25-26 | every fragment collected from any message of the session is in the collected list |
| `Refactor.MarkerInMessage` | src/autoswe/refactor.py:45-47 | a collected fragment containing the marker makes the session output contain it |
| `Refactor.Autorefactor` | src/autoswe/refactor.py:34-60 | no run when `max_iterations <= 0`; at most `max_iterations` runs; stops right after the first run whose output contains the marker, with no earlier run containing it; without the marker exactly `max_iterations` runs |

## Left out

- Running `gh` as a subprocess, decoding its output, its error on a non-zero exit, and `json.loads` of its output (src/autoswe/review.py:13-24, 40, 49). These are process I/O and a foreign parser; their results are the inputs `prs` and `fetch`.
- An empty `gh pr view` output decodes to `{}`, which has no `comments` and no `commits`. The model expresses this as `PrDetails(None, None)`, and `VerdictFor` then reads empty lists.
- A comment whose `body` key is present but JSON `null` makes the source raise a `TypeError`. This is not modelled: `gh` always reports a string body. A missing key is modelled (it reads as `""`).
- A listed pull request without a `number`, `title` or `url` key makes the source raise a `KeyError`. This is not modelled.
- Everything printed to the console: status lines, the rich formatting of each block kind, the rules and banners of the refactor loop. `typer` option parsing and `syncify`.
- The agent SDK's `query` call, its transport errors, and asynchronous iteration and cancellation. A query is a function from prompt and options to a finite message sequence, so a transport error cannot occur in the model.
- Pydantic's `model_json_schema` and `model_validate` are not interpreted. They are the two fields of a `Schema` value.
- `json.dumps` and `str` in `format_tool_input` are not interpreted; they are parameters. Only the length bound on the result is modelled.
- Messages.Json: numbers are integers only, so a float payload such as `0.0` (falsy in Python) is not represented.
- `src/autoswe/permission.py` (a constant options object and a prompt) and `src/autoswe/main.py` (a demo call) hold no logic and are not part of this model.
- Refactor.Autorefactor: `REFACTOR_PROMPT` is not modelled. The agent's behaviour in each run is the given session stream, because the agent changes the repository between runs.
- Refactor.RunClaudeCode: the trailing `console.print()` is not modelled.
- Streaming.PrintMessage, Refactor.RunClaudeCode, Refactor.Autorefactor: console printing is assumed never to raise. The console renders the agent's text as rich markup (src/autoswe/streaming.py:17, 51, 57, 77, 79, 88), and rich raises `MarkupError` on text such as `[/x]` (an unmatched closing tag) before the text is appended. In the source that error ends `run_claude_code` and `autorefactor` early, after fewer than `max_iterations` runs; the contracts describe only runs that return normally.
