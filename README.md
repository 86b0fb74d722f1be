# gitlab-mcp-server, modelled in Dafny

The server gives an AI assistant three read-only reports about the merge
request of the developer's current git branch: the console output of the
failed jobs of its latest pipeline, the local diff from its base commit, and
its still-unresolved review comments. Around a layer of GitLab REST calls and
`git` commands, the repository holds a few small pieces of decision logic.
This project models those pieces and proves what they promise:

- the comment filter: which discussion notes are actionable, how each one is
  rendered, and the two "nothing to report" messages;
- the choice of the merge request for a branch, by state priority
  (opened, then merged, then closed);
- the failed-job report: keep the jobs whose status is `"failed"`, render
  each one, join them;
- the change report: parse `git diff --name-status`, classify each entry,
  render one block per file, report per-file diff failures inline, and
  return a sentinel when nothing changed;
- the configuration guards and the project name taken from a remote URL.

Every GitLab call and every `git` or file-system question is an input of the
model: a function from the call's arguments to what the call returns, or to
the exception it raises (`ApiError` separates `GitlabGetError` from any other
exception, because the source handles them differently). Environment
variables are `Option<string>` inputs. Python exceptions become `Failure`
values that carry the `ValueError` message, copied verbatim. This includes
the two messages that name a different variable from the one read
(GITLAB_PROJECT_ID for GITLAB_PROJECT_NAME, BIZTEL_GIT_REPO_PATH for
GIT_REPO_PATH).

Files:

- `Wrappers.dfy`: `Option` and `Result`.
- `Strings.dfy`: the Python `str` operations used, namely `join`, `split` on
  one character, `strip` (with Python's whitespace set), `startswith`,
  `endswith` and `str()` of an integer.
- `Seqs.dfy`: `Filter`, `Map` and `Flatten`, for the list comprehensions and
  the `extend` loops.
- `GitUtils.dfy`: `src/utils/git_utils.py`.
- `GitlabUtils.dfy`: `src/utils/gitlab_utils.py`.

The source's loops are methods with loop invariants. Four of them are
proved equal to a specification function, and the lemmas are stated about
those functions: `ProcessDiscussion` (`DiscussionBlocks`), `MrComments`
(`CommentsReport`), `FailedJobsOutput` (`FailedJobsReport`) and
`DiffFromBase` (`DiffReport`); the per-line loop of `DiffFromBase` is the
method `ChangeDetails`, proved equal to `DiffBlocks` of `DiffEntries`.
`GetMergeRequest` has no specification
function: its `ensures` clauses state the state-priority choice directly.
The source's conditional expressions are functions: the getters,
`ProjectName` and `MrChanges`.

## Model

| member | source | states |
|---|---|---|
| `Strings.JoinAffixes` | src/utils/git_utils.py:169 | `str.join` of a non-empty list starts with the first part and ends with the last one |
| `Strings.Split` | src/utils/git_utils.py:137-141 | `str.split` on one character gives at least one piece, and no piece contains the separator |
| `Strings.SplitJoin` | src/utils/git_utils.py:137 | joining the pieces of a split with the separator gives back the string, so splitting loses no text |
| `Strings.SplitCount` | src/utils/git_utils.py:141-143 | a split gives two or more pieces exactly when the separator occurs |
| `Strings.SplitAtFirst` | src/utils/git_utils.py:141-146 | the first piece of a split is the text before the first separator, and the rest is the split of what follows |
| `Strings.SplitLastPiece` | src/utils/git_utils.py:103 | the last piece of a split is the text after the last separator |
| `Strings.SplitLastSuffix` | src/utils/git_utils.py:103 | the last piece is a suffix of the string |
| `Strings.SplitLastAfterSeparator` | src/utils/git_utils.py:103 | when the separator occurs, the last piece is preceded by one |
| `Strings.LeadingSpaces` | src/utils/git_utils.py:131 | counts the leading whitespace: every character before the count is whitespace and the one at the count is not |
| `Strings.TrailingSpaces` | src/utils/git_utils.py:131 | counts the trailing whitespace: every character after the cut is whitespace and the one before it is not |
| `Strings.Strip` | src/utils/git_utils.py:131 | `str.strip()` is the slice of the text that starts after its leading whitespace and is followed only by whitespace; it is empty exactly when the text is all whitespace, and otherwise neither starts nor ends with whitespace |
| `Strings.IntToString` | src/utils/gitlab_utils.py:312 | `str()` of an integer is a '-' exactly for a negative number, followed by a non-empty run of decimal digits whose value is the number's magnitude and which has no leading zero (only zero itself is written "0") |
| `Strings.NatToStringValue` | src/utils/gitlab_utils.py:312 | reading back the decimal digits of a natural number gives that number |
| `Seqs.Filter` | src/utils/gitlab_utils.py:195-197 | a list comprehension with a condition keeps exactly the elements that satisfy it, and no more elements than it was given |
| `Seqs.FilterAppend` | src/utils/gitlab_utils.py:195-197 | filtering a concatenation filters each part and keeps the parts in order, so the original order survives |
| `GitUtils.GitRepoPath` | src/utils/git_utils.py:20-36 | a missing or empty GIT_REPO_PATH fails with the BIZTEL_GIT_REPO_PATH message whatever the file system says, so it is checked first; success means set, existing and a repository, and returns the value |
| `GitUtils.ProjectName` | src/utils/git_utils.py:98-104 | the name has no '/'; it is the suffix of the URL without its ".git" that follows the last '/', or that whole text when there is no '/' |
| `GitUtils.ProjectNameOfUrl` | src/utils/git_utils.py:98-104 | for any prefix and any name without '/', `prefix/name.git` gives back `name`; only one ".git" is removed |
| `GitUtils.ProjectNameFromRemote` | src/utils/git_utils.py:95-106 | a remote-URL failure becomes the project-name error with its text; otherwise the result is the project name of the URL |
| `GitUtils.Classify` | src/utils/git_utils.py:148-155 | a status code starting with A is an addition, with D a deletion, with R a rename; every other code, the empty one included, is a modification |
| `GitUtils.Label` | src/utils/git_utils.py:148-155 | each change kind has its own label, and the four labels are distinct |
| `GitUtils.ParseLine` | src/utils/git_utils.py:137-146 | a name-status line is skipped exactly when it holds no tab, which covers the empty line and every line with fewer than two fields; otherwise the line starts with the status code, a tab and the path, neither of which holds a tab, and the path is the whole second field: the line ends there or goes on with another tab |
| `GitUtils.ParsePlainLine` | src/utils/git_utils.py:137-146 | an ordinary two-field line `<code>\t<path>` reports its status code and its whole path |
| `GitUtils.ParseRenameLine` | src/utils/git_utils.py:141-146 | a rename line `R<score>\t<old>\t<new>` reports its status code and the old path, the second field |
| `GitUtils.DiffEntries` | src/utils/git_utils.py:137-146 | there is one entry per line that holds a tab, in input order, and each entry is what that line parses to |
| `GitUtils.DiffEntriesAppend` | src/utils/git_utils.py:137 | the entries of concatenated listings are the entries of each listing, in order |
| `GitUtils.FileBlock` | src/utils/git_utils.py:157-167 | a file's block starts with the file header, its path and its change label in parentheses; it ends with the diff inside a `diff` fence, or, when the diff failed, with the failure prefix and the error text inside a plain fence |
| `GitUtils.DiffReport` | src/utils/git_utils.py:123-172 | the report fails only when the repository path or the name-status listing fails; a failing per-file diff never fails it |
| `GitUtils.DiffFromBase` | src/utils/git_utils.py:109-172 | computes exactly `DiffReport`: the prefixed failure of the repository path or of the name-status listing, the sentinel for an empty stripped listing, and otherwise the blocks of the listing's lines joined by blank lines |
| `GitUtils.ChangeDetails` | src/utils/git_utils.py:128-167 | the loop over the name-status lines computes exactly one block per line that holds a tab, in order, each block being that of the line's parsed entry |
| `GitUtils.DiffReportOutcomes` | src/utils/git_utils.py:131-169 | the sentinel comes back exactly when the stripped listing is empty; an empty string comes back exactly when the listing is non-empty but has no usable line |
| `GitUtils.FileDiffFailureIsolated` | src/utils/git_utils.py:157-167 | changing the diff outcome of one path changes only the blocks of that path; when that diff fails, its block ends with the error text |
| `GitlabUtils.GitlabUrl` | src/utils/gitlab_utils.py:24-27 | a missing or empty GITLAB_URL is an error with the GITLAB_URL message; otherwise the value is returned |
| `GitlabUtils.GitlabProjectId` | src/utils/gitlab_utils.py:41-44 | a missing or empty GITLAB_PROJECT_NAME is an error whose message names GITLAB_PROJECT_ID; otherwise the value is returned |
| `GitlabUtils.GetMergeRequest` | src/utils/gitlab_utils.py:137-151 | returns the first merge request of the first non-empty list among opened, merged and closed; a closed-only one is still found, and the result is `None` exactly when all lists are empty |
| `GitlabUtils.JobBlock` | src/utils/gitlab_utils.py:207-209 | a job's block starts with the job header, its name, the status field and its status, and ends with its console output inside a code fence |
| `GitlabUtils.JobBlocks` | src/utils/gitlab_utils.py:202-209 | when every trace is fetched there is one block per job, in order, with that job's trace; otherwise the error is that of the first job whose trace fetch failed |
| `GitlabUtils.FailedJobsOutput` | src/utils/gitlab_utils.py:160-215 | computes exactly `FailedJobsReport`: an empty string when there is no pipeline or no failed job, otherwise the blocks of the newest pipeline's jobs whose status is exactly "failed", joined by blank lines; a failure to fetch the merge request, list its pipelines, fetch the newest pipeline, list its jobs or fetch a trace is raised, as the "MR not found" error for a `GitlabGetError` |
| `GitlabUtils.FailedJobsEmptyIff` | src/utils/gitlab_utils.py:182-211 | the report is the empty string exactly when there is no pipeline, or the newest pipeline's jobs are listed and none of them failed |
| `GitlabUtils.FailedJobsSucceeds` | src/utils/gitlab_utils.py:186-215 | the report is raised exactly when listing the newest pipeline's jobs fails or the trace of one of its failed jobs cannot be fetched |
| `GitlabUtils.FormatNote` | src/utils/gitlab_utils.py:311-319 | a note's block starts with the header that names its file path and ends with its body, verbatim, inside a code fence |
| `GitlabUtils.AuthorShown` | src/utils/gitlab_utils.py:307-319 | the author line follows the location and shows the author's name, or `不明なユーザー` when the note has none |
| `GitlabUtils.Actionable` | src/utils/gitlab_utils.py:287-302 | a system note and a resolvable, resolved note are never kept; a kept note has a position with a non-empty `new_path` |
| `GitlabUtils.Location` | src/utils/gitlab_utils.py:309-315 | the location is the file field, the path, and either `, 行: ` with the line number or nothing, closed by a parenthesis |
| `GitlabUtils.LocationShowsLine` | src/utils/gitlab_utils.py:309-315 | for an anchored note, the location names only the file exactly when `new_line` is missing or zero; when the line is present and not zero, the location is the file field, the path, `, 行: `, the line number in decimal and a closing parenthesis |
| `GitlabUtils.NoteKept` | src/utils/gitlab_utils.py:287-302 | a note is kept exactly when it is not a system note, is not both resolvable and resolved, and has a non-empty `new_path`, so a resolvable but unresolved note is kept |
| `GitlabUtils.DiscussionBlocksEmpty` | src/utils/gitlab_utils.py:321-324 | a discussion gives no block exactly when none of its notes is actionable |
| `GitlabUtils.ProcessDiscussion` | src/utils/gitlab_utils.py:266-324 | returns one block per actionable note, in the notes' order, as many blocks as there are actionable notes, and `[]` exactly when no note is actionable |
| `GitlabUtils.CommentBlocksOfAllNotes` | src/utils/gitlab_utils.py:248-255 | discussion boundaries do not matter: the collected blocks are those of all notes of all discussions, in order |
| `GitlabUtils.MrComments` | src/utils/gitlab_utils.py:218-263 | computes exactly `CommentsReport`: "MR not found" is returned, other errors fetching the merge request or listing its discussions are raised with the comments-failure prefix and their text, and otherwise the report is a message or the blocks joined by `\n---\n` |
| `GitlabUtils.CommentsReport` | src/utils/gitlab_utils.py:233-263 | the report is raised exactly when fetching the merge request fails with an error other than not-found, or when listing its discussions fails; the latter is raised with the comments-failure prefix and the error text |
| `GitlabUtils.NoCommentMessagesDiffer` | src/utils/gitlab_utils.py:245-258 | the "no comments" and "no unresolved comments" messages are different for every merge request |
| `GitlabUtils.CommentsReportOutcomes` | src/utils/gitlab_utils.py:245-260 | no discussion gives the "no comments" message; discussions without an actionable note give the "no unresolved" message; otherwise the blocks of all actionable notes, in order, joined by `\n---\n` |
| `GitlabUtils.CommentsReportStartsWithBlock` | src/utils/gitlab_utils.py:257-260 | a non-empty comment report starts with a block header, so it is never one of the two messages |
| `GitlabUtils.OnlyAnchoredUnresolvedNoteReported` | src/utils/gitlab_utils.py:287-324 | with one resolved thread, one thread whose note has no position and one thread with an actionable note, the report is exactly that note's block |
| `GitlabUtils.MrChanges` | src/utils/gitlab_utils.py:327-369 | only a failure to fetch the merge request (other than not-found) is raised; a failing local diff is returned as text |
| `GitlabUtils.LocalChanges` | src/utils/gitlab_utils.py:359-366 | the local-diff step never raises: a failure is returned as the local-diff failure prefix and its text, an empty report or the "no changed files" sentinel becomes the "no changes since base" message, and any other report is returned unchanged |
| `GitlabUtils.MrChangesNoChangesIff` | src/utils/gitlab_utils.py:358-364 | with a base commit and a readable repository, the "no changes since base" message is returned exactly when the listing has no usable line (whitespace-only listings included); otherwise the result is the file blocks joined by blank lines |

## Left out

- GitLab client construction, the GITLAB_API_KEY check and authentication, with the one-URL retry loop (src/utils/gitlab_utils.py:47-82). These are network calls.
- Project resolution, by id and then by search (src/utils/gitlab_utils.py:85-116). Every report takes the merge request, or the error of fetching it, as an input, so the project-level failure messages are not produced.
- The API calls in get_merge_request that fail are not modelled: the state lists are total inputs, so the "Merge Requestの取得に失敗しました" error (src/utils/gitlab_utils.py:155-157) is not produced. The eager replacement of `mr.pipeline` by the full pipeline (lines 145-146) is also left out, because it is a network fetch and no modelled caller reads it.
- get_current_branch and get_remote_url (src/utils/git_utils.py:39-82). These query the `git.Repo` object (the active branch, the remotes). The project name takes the remote URL, or its error, as an input.
- The `hasattr` probing and the attribute-or-dict access to discussions, merge requests and pipelines. The model uses typed records with `Option` fields instead. The `mr.pipelines` manager check (line 182) is folded into the pipeline list being empty.
- API pagination. Each list call's result is whatever the input function returns, or its error.
- A note whose `body` or author `name` is JSON null is shown by the source as the text `None` (src/utils/gitlab_utils.py:307-308, 318). The model has no separate null value: both are read as the missing key, giving "" and `不明なユーザー`.
- FailedJobsOutput: the job trace is taken as the text to render. python-gitlab returns it as bytes, and how that is formatted into the f-string is not modelled.
- Note.newLine is an integer, as GitLab sends it, and is shown when it is present and not 0. A `None` author record (as opposed to a missing one) would raise in the source; this is not modelled.
- main.py: tool registration, the command-line dispatch, the printed preambles, and the not-found string that is passed on as an MR id. These are glue and output.
- The working copy itself: `git diff`, `os.path.exists` and `git.Repo` are the fields of `GitUtils.Repository`.
