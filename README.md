# IssueReviewer, modelled in Dafny

IssueReviewer walks the open issues of a Bitbucket repository and, for each
one, asks the Gemini text-generation service for a branch name, makes sure the
branch exists (creating it from the base branch's newest commit when it does
not), asks the service for a fix file and commits that file on the branch.

This project models the three core files of the program:

- `src/main.rs` (module `Orchestrator`, file `orchestrator.dfy`): the run as a
  sequential state machine. Every remote call is an oracle whose answer is an
  input (`World`, `IssueReplies`); the run produces a trace of the calls it
  makes with their arguments, interleaved with an abstract event for every
  line it prints, and its final `Ok`/`Err`. `Run` is the specification;
  `Orchestrate`, `ProcessIssues` (the `for` loop) and `ProcessIssue` (one pass
  of the loop body) are the imperative implementation proved equal to it.
- `src/bitbucket.rs` (module `Bitbucket`, file `bitbucket.dfy`): the URLs the
  repository client builds, the JSON body of `create_branch`, and how each
  decoded response becomes a result (`fetch_issues`, `create_branch`,
  `get_latest_commit`).
- `src/ai.rs` (module `Ai`, file `ai.dfy`): the branch-name request (URL,
  prompt, body) and how the decoded Gemini answer becomes a branch name or an
  error.

Supporting modules: `Results` (results and errors), `Json` (a decoded JSON
value with serde_json's never-failing `v["key"]`, `v[i]` and `as_str()`),
`Text` (Rust's `str::trim`, with the exact Unicode White_Space set that
`char::is_whitespace` uses).

The central facts proved about the run:

- a failing `get_latest_commit` ends the run with its error before issues are
  fetched;
- a failing or empty `fetch_issues` ends the run with `Ok` and no work on any issue;
- the issues are visited once each, in the order fetched, and branch naming is
  given each issue's id and title;
- the only per-issue failure that ends the run is a failing `branch_exists`
  (the `?` at `src/main.rs:35`): the run then returns that error and visits no
  later issue; every other per-issue failure is logged and the loop goes on;
- a branch is created only when `branch_exists` answered false, always from the
  run's single base commit;
- a commit is made exactly for the visited issues whose naming, provisioning
  and fix generation all worked, on that issue's branch with the generated
  path and content;
- fixes are asked for in `DEFAULT_LANG`, or `"javascript"` when it is not set.

Three behaviours of the code are worth stating plainly: an error from
`branch_exists` (the `?` at `src/main.rs:35`) aborts the whole run, while
every other per-issue failure is logged and the loop goes on; a failed issue
fetch is logged and the run returns `Ok` (`src/main.rs:69-71`); and the branch
name returned by the text-generation service is only trimmed
(`src/ai.rs:91`), not otherwise normalised.

The `Issue` struct at `src/bitbucket.rs:5-10` has only `id` and `title`, yet
`src/main.rs:49` reads `issue.content.raw`. The model's `Issue` has `id`,
`title` and `body`, and `DecodeIssue` reads `body` from the member
`content.raw` that `main.rs` reads (the `Content` struct at
`src/bitbucket.rs:12-15` spells its field `_raw`, which `main.rs` does not use).

## Model

| member | source | states |
|---|---|---|
| `Orchestrator.Orchestrate` | src/main.rs:12-72 | The imperative run yields exactly the trace and result of the specification `Run`: base commit, then issues, then the per-issue loop. |
| `Orchestrator.Run` | src/main.rs:12-72 | The specification of the run: its first call is `get_latest_commit` on "workspace/slug"; with a base commit the third action is `fetch_issues`; the run fails only when the base commit fails or issues were fetched, non-empty, and a `branch_exists` failed. |
| `Orchestrator.ProcessIssues` | src/main.rs:30-66 | The `for` loop over the issues (loop invariant: the trace so far is the specification of the issues visited so far, none of which aborted) equals `Process` over all issues; an abort leaves the loop at once. |
| `Orchestrator.ProcessIssue` | src/main.rs:31-65 | One pass of the loop body makes exactly the calls and log lines of `IssueStep`, and reports the `branch_exists` error when that call fails. |
| `Orchestrator.IssueStep` | src/main.rs:31-65 | The specification of one loop pass: naming, the `branch_exists` check, creation when absent, fix generation and commit, each failure logged, with the `branch_exists` error as the only abort (its properties are the `IssueStep*` lemmas). |
| `Orchestrator.Process` | src/main.rs:30-66 | The specification of the loop: a left fold of `IssueStep` over the first issues that stops at the first abort (its properties are `ProcessExtends`, `AbortIsFinal`, `ProcessAborts` and the filtering lemmas). |
| `Orchestrator.ProcessExtends` | src/main.rs:30-66 | The loop only appends: its trace over fewer issues is a prefix of its trace over more. |
| `Orchestrator.AbortIsFinal` | src/main.rs:35 | Once the loop has aborted, later issues add no action and do not change the error. |
| `Orchestrator.BaseCommitFailureStopsRun` | src/main.rs:21 | A failing `get_latest_commit` makes the run return that error, with `get_latest_commit` as its only call: issues are never fetched. |
| `Orchestrator.NoIssuesNoWork` | src/main.rs:25-29 | When fetching issues fails or returns none, the run returns `Ok` and makes no naming, branch, generation or commit call. |
| `Orchestrator.IssueStepNamesOnce` | src/main.rs:32 | For one issue, branch naming is asked exactly once, with the issue's id and its title. |
| `Orchestrator.IssueStepCreatesWhenAbsent` | src/main.rs:35-39 | For one issue, `create_branch` is called exactly when naming worked and `branch_exists` answered false, once, with the generated name and the base commit. |
| `Orchestrator.IssueStepFixesWhenProvisioned` | src/main.rs:39-49 | For one issue, fix generation is asked exactly when the branch was found or created, once, with id, title, body and the run's language; a failed `create_branch` skips it. |
| `Orchestrator.IssueStepCommitsWhenReady` | src/main.rs:49-57 | For one issue, `commit_file` is called exactly when naming, provisioning and generation worked, once, on the generated branch with the generated path and content. |
| `Orchestrator.IssueStepAborts` | src/main.rs:35 | For one issue, the loop is left exactly when naming worked and `branch_exists` failed, with that error; failures of naming, creation, generation and commit do not leave it. |
| `Orchestrator.FirstAbort` | src/main.rs:30-35 | The first position whose `branch_exists` fails (or the count): no earlier issue aborts, and the issue at that position does. |
| `Orchestrator.ProcessAborts` | src/main.rs:30-35 | The loop ends with an error exactly when some visited issue's `branch_exists` fails, and the error is that of the first such issue. |
| `Orchestrator.ProcessFiltered` | src/main.rs:30 | Any selection of the loop's actions is, in order, the concatenation over the visited issues of that selection within each issue. |
| `Orchestrator.ProcessVisitsInOrder` | src/main.rs:30-32 | The loop's naming requests are those of the visited issues, once each, in the order fetched. |
| `Orchestrator.ProcessCommits` | src/main.rs:49-57 | The loop's commits are, in issue order, one per visited issue that got a branch and a fix. |
| `Orchestrator.ProcessCreations` | src/main.rs:35-39 | The loop's branch creations are, in issue order, one per visited issue whose branch was found absent, each from the base commit. |
| `Orchestrator.RunVisitsIssuesInOrder` | src/main.rs:25-35 | With a base commit and fetched issues, the run fails exactly when a `branch_exists` fails (with the first such error), and asks for branch names for exactly the issues up to that one, or all of them, in order. |
| `Orchestrator.RunCommitsExactlyWhenReady` | src/main.rs:49-57 | The run's commits are exactly one per visited issue whose naming, provisioning and generation all worked, on its branch with its file. |
| `Orchestrator.RunCreatesOnlyWhenAbsent` | src/main.rs:35-39 | The run's branch creations are exactly one per visited issue whose branch `branch_exists` reported absent, all from the run's base commit. |
| `Orchestrator.IssueStepUsesContext` | src/main.rs:35-54 | Every call made for one issue addresses the run's repository, creates branches only from the base commit and asks for fixes in the run's language. |
| `Orchestrator.ProcessUsesContext` | src/main.rs:30-54 | The same holds for every call the loop makes. |
| `Orchestrator.RunUsesOneContext` | src/main.rs:17-47 | Every call of a run addresses "workspace/slug", every branch starts at the one base commit, and the language is `DEFAULT_LANG` if set, else "javascript". |
| `Orchestrator.TwoIssuesOneCommit` | src/main.rs:30-66 | Two issues, the first succeeding through commit and the second failing at naming: both are visited, exactly one commit is made, and the run succeeds. |
| `Orchestrator.RepoPath` | src/main.rs:17 | The repository path is the workspace, one '/', then the slug. |
| `Orchestrator.Language` | src/main.rs:46-47 | The fix language is `DEFAULT_LANG` when set, else "javascript". |
| `Orchestrator.RepoPathSplits` | src/main.rs:17 | The repository path "workspace/slug" splits back into workspace and slug when the workspace has no '/'. |
| `Bitbucket.Endpoint` | src/bitbucket.rs:18 | Each URL is the repositories base, then the repository, then the collection's fixed suffix (`/issues`, `/refs/branches`, `/commits`). |
| `Bitbucket.ParseCollectionInverts` | src/bitbucket.rs:42 | No collection suffix ends another, so the suffix of a URL names its collection and what precedes it is the repository. |
| `Bitbucket.ParseEndpointInverts` | src/bitbucket.rs:69 | Reading a built URL back gives the repository and collection it was built from. |
| `Bitbucket.EndpointInjective` | src/bitbucket.rs:18 | Distinct repositories or collections never share a URL. |
| `Bitbucket.DecodeIssue` | src/bitbucket.rs:5-10 | An element decodes exactly when it is an object with an integral `id` within `i32`, a string `title` and a string `content.raw`, and the issue carries exactly those values; otherwise it is a decoding error. |
| `Bitbucket.DecodeIgnoresOtherMembers` | src/bitbucket.rs:5-10 | Adding or changing any member other than `id`, `title` and `content` does not change how an element decodes. |
| `Bitbucket.DecodeIssues` | src/bitbucket.rs:30 | A JSON list decodes exactly when every element decodes as an issue, into the same number of issues in the same order; otherwise it is a decoding error. |
| `Bitbucket.IssuesFromResponse` | src/bitbucket.rs:26-31 | Null or absent `values` gives the empty list; a `values` list gives exactly the list decoding of its elements; the result is `Ok` if and only if `values` is null or a list whose every element decodes; any failure is a decoding error. |
| `Bitbucket.IssuesRoundTrip` | src/bitbucket.rs:5-31 | A listing of issues whose ids fit in `i32` decodes back to exactly those issues, in order. |
| `Bitbucket.NonListValuesFail` | src/bitbucket.rs:30 | A `values` member that is present but not a list is a decoding error, not an empty list. |
| `Bitbucket.BranchRequestBody` | src/bitbucket.rs:43-48 | The body holds the members `name` and `target` only, and `target` holds `hash` only. |
| `Bitbucket.BranchRequestRoundTrip` | src/bitbucket.rs:44-46 | The body's `name` is the branch name and its `target.hash` is the commit it starts from. |
| `Bitbucket.CreateBranchOutcome` | src/bitbucket.rs:56-60 | Success exactly for a 2xx status; otherwise the error message is "Failed to create branch: " followed by the whole response text. |
| `Bitbucket.LatestCommitFromResponse` | src/bitbucket.rs:79-82 | Success exactly when `values` is a non-empty list whose first element has a string `hash`, which is returned; any other shape gives "No se pudo obtener el hash del commit". |
| `Bitbucket.LatestCommitIsFirstListed` | src/bitbucket.rs:79-84 | For a commit listing, the result is the first listed hash, or the fixed error when the listing is empty. |
| `Ai.GenerateContentUrl` | src/ai.rs:49-52 | The URL is the fixed `generateContent` endpoint, then "?key=", then exactly the API key. |
| `Ai.ApiKeyRoundTrip` | src/ai.rs:49-52 | The API key is read back unchanged from the URL. |
| `Ai.BranchNamePrompt` | src/ai.rs:55-63 | The prompt quotes the issue id right after its fixed opening and the description right after the fixed words that follow the id. |
| `Ai.BranchNameRequest` | src/ai.rs:65-69 | The request body has one content with one part, whose text is the prompt. |
| `Ai.BranchNameRequestCarriesPrompt` | src/ai.rs:65-69 | The request body holds exactly one content with exactly one part, whose text is the prompt, and the prompt contains both the id and the description. |
| `Ai.BranchNameFromResponse` | src/ai.rs:80-91 | An error payload gives "Gemini API error: " and the service's message whatever the candidates; no candidates gives the fixed error; an empty first `parts` is the panic; otherwise the name is exactly `Trim` of the first part of the first candidate, which has no whitespace at either end and is unchanged by trimming again. |
| `Ai.OnlyFirstPartIsRead` | src/ai.rs:91 | Further parts and further candidates do not affect the name: it is the first part of the first candidate, trimmed. |
| `Ai.PaddedNameIsUnwrapped` | src/ai.rs:91 | A name surrounded by whitespace in the answer comes back as exactly that name. |
| `Ai.ErrorPayloadWins` | src/ai.rs:81-83 | With an error payload the result is that error, for any list of candidates. |
| `Text.SkipLeading` | src/ai.rs:91 | The scan from the front stops at the first character that is not whitespace, having passed only whitespace. |
| `Text.SkipTrailing` | src/ai.rs:91 | The scan from the back, never below where the front scan stopped, stops just past the last character that is not whitespace, having passed only whitespace. |
| `Text.Trim` | src/ai.rs:91 | The result is a piece of the input preceded and followed only by whitespace, with no whitespace at either end. |
| `Text.TrimUnwraps` | src/ai.rs:91 | Whatever is wrapped in whitespace and has none at its own ends trims back to itself: the trimmed text is unique. |
| `Text.TrimIdempotent` | src/ai.rs:91 | Trimming twice is trimming once. |

## Left out

- HTTP transport: `reqwest`, basic authentication, `send().await?`, the
  `.json().await?` and `resp.text().await?` steps and their failures. The
  clients start from the decoded response (or the status and text).
- The tokio runtime: the awaits are sequential, so the oracles are plain inputs.
- serde decoding of `GeminiResponse`: the model starts from the decoded value
  (absent `candidates`/`error` members are the empty list and `None`).
- JSON numbers that are not integers: `Json.Value` keeps integral numbers only.
- serde's acceptance of an issue written as a JSON array instead of an object.
- The environment reads: `BITBUCKET_TOKEN` and `BITBUCKET_USER`
  (`src/utils.rs:4-12`, which panic when unset) feed only authentication, which
  is not modelled; `DEFAULT_LANG` (`src/main.rs:46-47`) is the parameter
  `defaultLang`; `GEMINI_API_KEY` (`src/ai.rs:48`) is the parameter of
  `Ai.GenerateContentUrl`.
- `branch_exists`, `commit_file` and `generate_fix_code` are imported by
  `src/main.rs` but their bodies are not part of this model; their answers are
  oracle inputs. `get_repo_slug` and `get_workspace` are imported from
  `src/utils.rs`, which does not define them; workspace and slug are
  parameters of `World`.
- `_fix_issue` (`src/ai.rs:94-96`), an empty stub.
- The wording of the printed lines: each becomes an abstract `Event`.
- The decimal rendering `issue.id.to_string()`: trace actions carry the integer id.
- The natural-language wording of the prompt beyond the positions of the id
  and the description (the text itself is reproduced as constants).
- Orchestrator.Orchestrate: two panics inside `generate_branch_name` end the
  whole process and are not represented, because every oracle answers with a
  value: the `expect` on an unset `GEMINI_API_KEY` (`src/ai.rs:48`) and the
  index panic on an empty `parts` list (`src/ai.rs:91`, for which the `Ai`
  model returns the distinct error `MissingPart`).
