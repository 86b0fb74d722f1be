/** The decision logic of `src/utils/gitlab_utils.py`: the configuration
    getters, the choice of the merge request for a branch, the failed-job
    report, the filter that keeps the still-actionable review comments, and
    the change report built on the local diff. Every GitLab call is an input:
    a function from its arguments to what the call returns or raises. */
module GitlabUtils {
  import opened Wrappers
  import opened Strings
  import opened Seqs
  import opened GitUtils

  /** An exception raised by a GitLab call: `GitlabGetError` (what a failed
      GET raises) or any other exception, with its `str()`. */
  datatype ApiError = GetError(message: string) | OtherError(message: string)

  /** `value` when it is set and non-empty, otherwise the given error. */
  function RequireSetting(value: Option<string>, unset: string): (r: Result<string, string>)
    ensures r.Success? <==> value.Some? && value.value != ""
    ensures r.Success? ==> r.value == value.value
    ensures r.Failure? ==> r.error == unset
  {
    if value.None? || value.value == "" then Failure(unset) else Success(value.value)
  }

  /** get_gitlab_url; `env` is the value of GITLAB_URL. */
  function GitlabUrl(env: Option<string>): (r: Result<string, string>)
    ensures r.Success? <==> env.Some? && env.value != ""
    ensures r.Success? ==> r.value == env.value
    ensures r.Failure? ==> r.error == "GITLAB_URL環境変数が設定されていません。"
  {
    RequireSetting(env, "GITLAB_URL環境変数が設定されていません。")
  }

  /** get_gitlab_project_id; `env` is the value of GITLAB_PROJECT_NAME, while
      the error names GITLAB_PROJECT_ID, as the source does. */
  function GitlabProjectId(env: Option<string>): (r: Result<string, string>)
    ensures r.Success? <==> env.Some? && env.value != ""
    ensures r.Success? ==> r.value == env.value
    ensures r.Failure? ==> r.error == "GITLAB_PROJECT_ID環境変数が設定されていません。"
  {
    RequireSetting(env, "GITLAB_PROJECT_ID環境変数が設定されていません。")
  }

  function MrNotFound(mrId: int): string
  {
    "MR ID #" + IntToString(mrId) + " が見つかりません。"
  }

  // ---------------------------------------------------------------------
  // get_merge_request

  datatype MrState = Opened | Merged | Closed

  /** The order in which the states are searched. */
  const StatePriority: seq<MrState> := [Opened, Merged, Closed]

  /** A merge request as the tool reads it: its project-scoped number and its
      `diff_refs` record (absent, or a dictionary whose values may be null). */
  datatype MergeRequest = MergeRequest(iid: int, diffRefs: Option<map<string, Option<string>>>)

  /** get_merge_request; `listMergeRequests(branch, state)` is the list the
      API returns for that source branch and state, newest first. */
  method GetMergeRequest(branch: string, listMergeRequests: (string, MrState) -> seq<MergeRequest>)
    returns (found: Option<MergeRequest>)
    ensures listMergeRequests(branch, Opened) != [] ==>
      found == Some(listMergeRequests(branch, Opened)[0])
    ensures listMergeRequests(branch, Opened) == [] && listMergeRequests(branch, Merged) != [] ==>
      found == Some(listMergeRequests(branch, Merged)[0])
    ensures (listMergeRequests(branch, Opened) == [] && listMergeRequests(branch, Merged) == []
             && listMergeRequests(branch, Closed) != []) ==>
      found == Some(listMergeRequests(branch, Closed)[0])
    ensures found.None? <==> forall state :: listMergeRequests(branch, state) == []
  {
    assert StatePriority[0] == Opened && StatePriority[1] == Merged && StatePriority[2] == Closed;
    var i := 0;
    while i < |StatePriority|
      invariant 0 <= i <= |StatePriority|
      invariant forall j :: 0 <= j < i ==> listMergeRequests(branch, StatePriority[j]) == []
    {
      var mrs := listMergeRequests(branch, StatePriority[i]);
      if mrs != [] {
        return Some(mrs[0]);
      }
      i := i + 1;
    }
    forall state ensures listMergeRequests(branch, state) == [] {
      assert state == StatePriority[0] || state == StatePriority[1] || state == StatePriority[2];
    }
    return None;
  }

  // ---------------------------------------------------------------------
  // get_failed_jobs_output

  datatype Job = Job(id: int, name: string, status: string)

  predicate IsFailed(job: Job) { job.status == "failed" }

  const JobHeader := "# ジョブ: "
  const StatusField := "\n- ステータス: "
  const OutputField := "\n- 出力:\n```\n"

  /** The block for one failed job: its name and status first, its trace
      verbatim last, inside a code fence. */
  function JobBlock(job: Job, trace: string): (block: string)
    ensures StartsWith(block, JobHeader + job.name)
    ensures StartsWith(block, JobHeader + job.name + StatusField + job.status)
    ensures EndsWith(block, OutputField + trace + FenceEnd)
  {
    var head := JobHeader + job.name;
    var tail := OutputField + trace + FenceEnd;
    ConcatAffixes(head, StatusField + job.status + tail);
    ConcatAffixes(head + StatusField + job.status, tail);
    assert head + StatusField + job.status + tail == head + (StatusField + job.status + tail);
    head + StatusField + job.status + tail
  }

  /** The blocks of the jobs, in order, or the first error met while fetching
      their traces. */
  function JobBlocks(jobs: seq<Job>, fetchTrace: int -> Result<string, ApiError>): (r: Result<seq<string>, ApiError>)
    ensures r.Success? <==> forall k :: 0 <= k < |jobs| ==> fetchTrace(jobs[k].id).Success?
    ensures r.Success? ==> |r.value| == |jobs|
    ensures r.Success? ==>
      forall k :: 0 <= k < |jobs| ==> r.value[k] == JobBlock(jobs[k], fetchTrace(jobs[k].id).value)
    ensures r.Failure? ==>
      exists k :: (0 <= k < |jobs| && fetchTrace(jobs[k].id) == Failure(r.error)
                   && forall j :: 0 <= j < k ==> fetchTrace(jobs[j].id).Success?)
  {
    if jobs == [] then Success([])
    else
      match fetchTrace(jobs[0].id)
      case Failure(e) => Failure(e)
      case Success(trace) =>
        match JobBlocks(jobs[1..], fetchTrace)
        case Failure(e) => Failure(e)
        case Success(rest) => Success([JobBlock(jobs[0], trace)] + rest)
  }

  function FailedJobsError(mrId: int, e: ApiError): string
  {
    match e
    case GetError(_) => MrNotFound(mrId)
    case OtherError(m) => "失敗したジョブの出力取得に失敗しました: " + m
  }

  /** What get_failed_jobs_output returns or raises. `mrPipelines` is the
      merge request's pipeline ids, newest first (or the error of fetching
      the merge request or listing its pipelines), `pipelineJobs` the jobs
      of a pipeline (or the error of fetching the pipeline or listing its
      jobs), and `fetchTrace` the console output of a job. */
  function FailedJobsReport(mrId: int, mrPipelines: Result<seq<int>, ApiError>,
                            pipelineJobs: int -> Result<seq<Job>, ApiError>,
                            fetchTrace: int -> Result<string, ApiError>): Result<string, string>
  {
    match mrPipelines
    case Failure(e) => Failure(FailedJobsError(mrId, e))
    case Success(pipelines) =>
      if pipelines == [] then Success("")
      else
        match pipelineJobs(pipelines[0])
        case Failure(e) => Failure(FailedJobsError(mrId, e))
        case Success(jobs) =>
          var failedJobs := Filter(IsFailed, jobs);
          if failedJobs == [] then Success("")
          else
            match JobBlocks(failedJobs, fetchTrace)
            case Failure(e) => Failure(FailedJobsError(mrId, e))
            case Success(outputs) => Success(Join("\n\n", outputs))
  }

  /** get_failed_jobs_output. */
  method FailedJobsOutput(mrId: int, mrPipelines: Result<seq<int>, ApiError>,
                          pipelineJobs: int -> Result<seq<Job>, ApiError>,
                          fetchTrace: int -> Result<string, ApiError>) returns (r: Result<string, string>)
    ensures r == FailedJobsReport(mrId, mrPipelines, pipelineJobs, fetchTrace)
  {
    if mrPipelines.Failure? {
      return Failure(FailedJobsError(mrId, mrPipelines.error));
    }
    var pipelines := mrPipelines.value;
    if pipelines == [] {
      return Success("");
    }
    var jobs := pipelineJobs(pipelines[0]);
    if jobs.Failure? {
      return Failure(FailedJobsError(mrId, jobs.error));
    }
    var failedJobs := Filter(IsFailed, jobs.value);
    if failedJobs == [] {
      return Success("");
    }
    var outputs: seq<string> := [];
    var i := 0;
    while i < |failedJobs|
      invariant 0 <= i <= |failedJobs|
      invariant |outputs| == i
      invariant forall k :: 0 <= k < i ==> fetchTrace(failedJobs[k].id).Success?
      invariant forall k :: 0 <= k < i ==>
        outputs[k] == JobBlock(failedJobs[k], fetchTrace(failedJobs[k].id).value)
    {
      var job := failedJobs[i];
      var jobOutput := fetchTrace(job.id);
      if jobOutput.Failure? {
        ghost var blocks := JobBlocks(failedJobs, fetchTrace);
        assert blocks.Failure?;
        return Failure(FailedJobsError(mrId, jobOutput.error));
      }
      outputs := outputs + [JobBlock(job, jobOutput.value)];
      i := i + 1;
    }
    ghost var blocks := JobBlocks(failedJobs, fetchTrace);
    assert blocks.Success? && |blocks.value| == |outputs|;
    assert forall k :: 0 <= k < |outputs| ==> blocks.value[k] == outputs[k];
    assert blocks.value == outputs;
    return Success(Join("\n\n", outputs));
  }

  /** The report is empty exactly when there is no pipeline, or the jobs of
      the newest one are listed and none has the status "failed"; a failed
      job always contributes a block, so it is never empty otherwise. */
  lemma FailedJobsEmptyIff(mrId: int, pipelines: seq<int>, pipelineJobs: int -> Result<seq<Job>, ApiError>,
                           fetchTrace: int -> Result<string, ApiError>)
    ensures FailedJobsReport(mrId, Success(pipelines), pipelineJobs, fetchTrace) == Success("")
      <==> pipelines == [] || (pipelineJobs(pipelines[0]).Success?
                               && Filter(IsFailed, pipelineJobs(pipelines[0]).value) == [])
  {
    if pipelines != [] && pipelineJobs(pipelines[0]).Success? {
      var failedJobs := Filter(IsFailed, pipelineJobs(pipelines[0]).value);
      var blocks := JobBlocks(failedJobs, fetchTrace);
      if failedJobs != [] && blocks.Success? {
        assert blocks.value[0] == JobBlock(failedJobs[0], fetchTrace(failedJobs[0].id).value);
        StartsWithTrans(blocks.value[0], JobHeader + failedJobs[0].name, JobHeader);
        assert blocks.value[0][0] == '#';
      }
    }
  }

  /** Once the merge request's pipelines are listed, the report is raised
      exactly when listing the newest pipeline's jobs fails or the trace of
      one of its failed jobs cannot be fetched. */
  lemma FailedJobsSucceeds(mrId: int, pipelines: seq<int>, pipelineJobs: int -> Result<seq<Job>, ApiError>,
                           fetchTrace: int -> Result<string, ApiError>)
    ensures FailedJobsReport(mrId, Success(pipelines), pipelineJobs, fetchTrace).Success?
      <==> pipelines == [] || (pipelineJobs(pipelines[0]).Success?
                               && (forall job :: job in Filter(IsFailed, pipelineJobs(pipelines[0]).value) ==>
                                     fetchTrace(job.id).Success?))
  {
    if pipelines != [] && pipelineJobs(pipelines[0]).Success? {
      var failedJobs := Filter(IsFailed, pipelineJobs(pipelines[0]).value);
      if forall k :: 0 <= k < |failedJobs| ==> fetchTrace(failedJobs[k].id).Success? {
        forall job | job in failedJobs
          ensures fetchTrace(job.id).Success?
        {
          var k :| 0 <= k < |failedJobs| && failedJobs[k] == job;
        }
      }
    }
  }

  // ---------------------------------------------------------------------
  // process_discussion

  /** Where a diff note is anchored; a missing key and a null value are both
      `None`. */
  datatype Position = Position(newPath: Option<string>, newLine: Option<int>)

  /** A note of a discussion thread, with the fields the filter reads;
      `authorName` is the `name` of its `author` record. */
  datatype Note = Note(system: bool, resolvable: bool, resolved: bool,
                       position: Option<Position>, authorName: Option<string>, body: Option<string>)

  /** A discussion: its notes, in order. */
  type Thread = seq<Note>

  const UnknownUser := "不明なユーザー"

  /** `new_path` of the note's position, or "" when there is none. */
  function FilePath(note: Note): string
  {
    if note.position.Some? && note.position.value.newPath.Some? then note.position.value.newPath.value else ""
  }

  /** Whether `new_line` is truthy: present and not 0. */
  predicate HasLine(note: Note)
  {
    note.position.Some? && note.position.value.newLine.Some? && note.position.value.newLine.value != 0
  }

  /** A note still to act on: not a system note, not resolved (when it can
      be), and anchored to a file. */
  predicate Actionable(note: Note): (kept: bool)
    ensures note.system ==> !kept
    ensures note.resolvable && note.resolved ==> !kept
    ensures kept ==> note.position.Some? && note.position.value.newPath.Some? && note.position.value.newPath.value != ""
  {
    !note.system && !(note.resolvable && note.resolved) && FilePath(note) != ""
  }

  function AuthorName(note: Note): string
  {
    match note.authorName
    case Some(name) => name
    case None => UnknownUser
  }

  function BodyText(note: Note): string
  {
    match note.body
    case Some(text) => text
    case None => ""
  }

  const NoteHeader := "# 対象: "
  const FileField := " (ファイル: "
  const LineField := ", 行: "
  const AuthorField := "\n- コメント者: "
  const CommentField := "\n- コメント:\n```\n"

  /** What follows the file in the location: the line when there is one. */
  function LineSuffix(note: Note): string
  {
    if FilePath(note) != "" && HasLine(note) then
      LineField + IntToString(note.position.value.newLine.value) + ")"
    else ")"
  }

  /** The location text: the file, and the line when there is one. */
  function Location(note: Note): (loc: string)
    ensures FilePath(note) != "" && HasLine(note) ==>
      loc == FileField + FilePath(note) + (LineField + IntToString(note.position.value.newLine.value) + ")")
    ensures !HasLine(note) ==> loc == FileField + FilePath(note) + ")"
  {
    FileField + FilePath(note) + LineSuffix(note)
  }

  /** The block layout keeps its leading fields as a prefix and its
      trailing fields as a suffix. */
  lemma BlockAffixes(header: string, field: string, path: string, rest: string, author: string, tail: string)
    ensures StartsWith(header + (field + path + rest) + author + tail, header + field + path)
    ensures EndsWith(header + (field + path + rest) + author + tail, tail)
  {
    var head := header + (field + path + rest) + author;
    assert head == (header + field + path) + (rest + author);
    ConcatAffixes(header + field + path, rest + author);
    StartsWithTrans(head + tail, head, header + field + path);
    ConcatAffixes(head, tail);
  }

  /** The block for one note: the file it is anchored to first, its body
      verbatim last. */
  function FormatNote(note: Note): (block: string)
    ensures StartsWith(block, NoteHeader + FileField + FilePath(note))
    ensures EndsWith(block, CommentField + BodyText(note) + FenceEnd)
  {
    var head := NoteHeader + Location(note) + AuthorField + AuthorName(note);
    var tail := CommentField + BodyText(note) + FenceEnd;
    BlockAffixes(NoteHeader, FileField, FilePath(note), LineSuffix(note), AuthorField + AuthorName(note), tail);
    head + tail
  }

  /** A note is kept exactly when it is not a system note, is not both
      resolvable and resolved, and has a non-empty `new_path`. */
  lemma NoteKept(notes: Thread, note: Note)
    requires note in notes
    ensures note in Filter(Actionable, notes) <==>
      && !note.system
      && !(note.resolvable && note.resolved)
      && note.position.Some? && note.position.value.newPath.Some? && note.position.value.newPath.value != ""
  {
  }

  /** The location names the line exactly when the note has a non-zero
      `new_line`; otherwise it names only the file. */
  lemma LocationShowsLine(note: Note)
    requires FilePath(note) != ""
    ensures Location(note) == FileField + FilePath(note) + ")" <==> !HasLine(note)
    ensures HasLine(note) ==>
      Location(note) == FileField + FilePath(note) + LineField + IntToString(note.position.value.newLine.value) + ")"
  {
    if HasLine(note) {
      assert |LineSuffix(note)| > 1;
    }
  }

  /** The author line follows the location and names the author, or the
      placeholder when the note has no author name; an empty name is kept. */
  lemma AuthorShown(note: Note)
    ensures StartsWith(FormatNote(note),
      NoteHeader + Location(note) + AuthorField
      + (if note.authorName.Some? then note.authorName.value else UnknownUser))
  {
    var head := NoteHeader + Location(note) + AuthorField + AuthorName(note);
    ConcatAffixes(head, CommentField + BodyText(note) + FenceEnd);
  }

  /** The blocks of one discussion: one per actionable note, in order. */
  function DiscussionBlocks(notes: Thread): seq<string>
  {
    Map(FormatNote, Filter(Actionable, notes))
  }

  /** A discussion gives no block exactly when none of its notes is
      actionable. */
  lemma DiscussionBlocksEmpty(notes: Thread)
    ensures DiscussionBlocks(notes) == [] <==> forall note :: note in notes ==> !Actionable(note)
  {
    var kept := Filter(Actionable, notes);
    if kept != [] {
      assert kept[0] in kept;
    }
  }

  /** One more note adds its block at the end exactly when it is actionable. */
  lemma DiscussionBlocksStep(notes: Thread, note: Note)
    ensures DiscussionBlocks(notes + [note])
      == DiscussionBlocks(notes) + (if Actionable(note) then [FormatNote(note)] else [])
  {
    FilterAppend(Actionable, notes, [note]);
    MapAppend(FormatNote, Filter(Actionable, notes), Filter(Actionable, [note]));
    DiscussionBlocksOfOne(note);
  }

  /** process_discussion. */
  method ProcessDiscussion(notes: Thread) returns (comments: seq<string>)
    ensures comments == DiscussionBlocks(notes)
    ensures |comments| == |Filter(Actionable, notes)|
    ensures comments == [] <==> forall note :: note in notes ==> !Actionable(note)
  {
    var discussionComments: seq<string> := [];
    var hasUnresolvedNotes := false;
    var i := 0;
    while i < |notes|
      invariant 0 <= i <= |notes|
      invariant discussionComments == DiscussionBlocks(notes[..i])
      invariant hasUnresolvedNotes <==> discussionComments != []
    {
      var note := notes[i];
      PrefixStep(notes, i);
      DiscussionBlocksStep(notes[..i], note);
      if note.system {
      } else if note.resolvable && note.resolved {
      } else {
        var filePath := FilePath(note);
        if filePath != "" {
          hasUnresolvedNotes := true;
          discussionComments := discussionComments + [FormatNote(note)];
        }
      }
      i := i + 1;
    }
    assert notes[..|notes|] == notes;
    DiscussionBlocksEmpty(notes);
    if hasUnresolvedNotes {
      return discussionComments;
    }
    return [];
  }

  // ---------------------------------------------------------------------
  // get_mr_comments

  /** The blocks of all discussions: each discussion's blocks, in order. */
  function CommentBlocks(discussions: seq<Thread>): seq<string>
  {
    Flatten(Map(DiscussionBlocks, discussions))
  }

  lemma CommentBlocksStep(discussions: seq<Thread>, notes: Thread)
    ensures CommentBlocks(discussions + [notes]) == CommentBlocks(discussions) + DiscussionBlocks(notes)
  {
    var blocks := DiscussionBlocks(notes);
    MapAppend(DiscussionBlocks, discussions, [notes]);
    assert Map(DiscussionBlocks, [notes]) == [blocks];
    FlattenAppend(Map(DiscussionBlocks, discussions), [blocks]);
    assert Flatten([blocks]) == blocks + Flatten([]);
  }

  /** Discussion boundaries do not matter: the blocks of all discussions are
      those of all their notes taken together. */
  lemma {:induction false} CommentBlocksOfAllNotes(discussions: seq<Thread>)
    ensures CommentBlocks(discussions) == DiscussionBlocks(Flatten(discussions))
  {
    if discussions != [] {
      var rest := discussions[1..];
      CommentBlocksOfAllNotes(rest);
      assert Map(DiscussionBlocks, discussions)[1..] == Map(DiscussionBlocks, rest);
      FilterAppend(Actionable, discussions[0], Flatten(rest));
      MapAppend(FormatNote, Filter(Actionable, discussions[0]), Filter(Actionable, Flatten(rest)));
    }
  }

  function NoComments(iid: int): string
  {
    "MR #" + IntToString(iid) + " へのコメントはありません。"
  }

  function NoUnresolvedComments(iid: int): string
  {
    "MR #" + IntToString(iid) + " への未解決の指摘事項はありません。"
  }

  const CommentsFailed := "MRへの指摘事項の取得に失敗しました: "

  /** What get_mr_comments returns or raises, given the merge request (or the
      error of fetching it) and its discussions (or the error of listing
      them). Only "not found" for the merge request itself is returned as
      text; listing the discussions fails with any error, not-found
      included. */
  function CommentsReport(mrId: int, mr: Result<MergeRequest, ApiError>,
                          discussions: Result<seq<Thread>, ApiError>): (r: Result<string, string>)
    ensures r.Failure? <==> (mr.Failure? && mr.error.OtherError?) || (mr.Success? && discussions.Failure?)
    ensures mr.Success? && discussions.Failure? ==> r == Failure(CommentsFailed + discussions.error.message)
  {
    match mr
    case Failure(GetError(_)) => Success(MrNotFound(mrId))
    case Failure(OtherError(m)) => Failure(CommentsFailed + m)
    case Success(m) =>
      match discussions
      case Failure(e) => Failure(CommentsFailed + e.message)
      case Success(threads) =>
        if threads == [] then Success(NoComments(m.iid))
        else
          var comments := CommentBlocks(threads);
          if comments == [] then Success(NoUnresolvedComments(m.iid))
          else Success(Join("\n---\n", comments))
  }

  /** get_mr_comments. */
  method MrComments(mrId: int, mr: Result<MergeRequest, ApiError>, listed: Result<seq<Thread>, ApiError>)
    returns (r: Result<string, string>)
    ensures r == CommentsReport(mrId, mr, listed)
  {
    if mr.Failure? {
      if mr.error.GetError? {
        return Success(MrNotFound(mrId));
      }
      return Failure(CommentsFailed + mr.error.message);
    }
    var iid := mr.value.iid;
    if listed.Failure? {
      return Failure(CommentsFailed + listed.error.message);
    }
    var discussions := listed.value;
    if discussions == [] {
      return Success(NoComments(iid));
    }
    var comments: seq<string> := [];
    var i := 0;
    while i < |discussions|
      invariant 0 <= i <= |discussions|
      invariant comments == CommentBlocks(discussions[..i])
    {
      PrefixStep(discussions, i);
      CommentBlocksStep(discussions[..i], discussions[i]);
      var discussionComments := ProcessDiscussion(discussions[i]);
      if discussionComments != [] {
        comments := comments + discussionComments;
      }
      i := i + 1;
    }
    assert discussions[..|discussions|] == discussions;
    if comments == [] {
      return Success(NoUnresolvedComments(iid));
    }
    return Success(Join("\n---\n", comments));
  }

  /** The two "nothing to report" messages differ. */
  lemma NoCommentMessagesDiffer(iid: int)
    ensures NoComments(iid) != NoUnresolvedComments(iid)
  {
    assert |NoComments(iid)| != |NoUnresolvedComments(iid)|;
  }

  /** The three outcomes for a merge request that was found: no discussion at
      all, discussions without an actionable note (the other message), or
      the blocks of all actionable notes, in order. */
  lemma CommentsReportOutcomes(mrId: int, m: MergeRequest, discussions: seq<Thread>)
    ensures discussions == [] ==> CommentsReport(mrId, Success(m), Success(discussions)) == Success(NoComments(m.iid))
    ensures discussions != [] && (forall note :: note in Flatten(discussions) ==> !Actionable(note)) ==>
      CommentsReport(mrId, Success(m), Success(discussions)) == Success(NoUnresolvedComments(m.iid))
    ensures (exists note :: note in Flatten(discussions) && Actionable(note)) ==>
      CommentsReport(mrId, Success(m), Success(discussions))
      == Success(Join("\n---\n", DiscussionBlocks(Flatten(discussions))))
  {
    CommentBlocksOfAllNotes(discussions);
    DiscussionBlocksEmpty(Flatten(discussions));
  }

  /** A non-empty comment report starts like a block, so it is never taken
      for either "nothing to report" message. */
  lemma CommentsReportStartsWithBlock(notes: Thread)
    requires DiscussionBlocks(notes) != []
    ensures StartsWith(Join("\n---\n", DiscussionBlocks(notes)), NoteHeader + FileField)
    ensures Join("\n---\n", DiscussionBlocks(notes))[0] == '#'
  {
    var blocks := DiscussionBlocks(notes);
    var note := Filter(Actionable, notes)[0];
    var header := NoteHeader + FileField;
    assert blocks[0] == FormatNote(note);
    ConcatAffixes(header, FilePath(note));
    StartsWithTrans(blocks[0], header + FilePath(note), header);
    JoinAffixes("\n---\n", blocks);
    StartsWithTrans(Join("\n---\n", blocks), blocks[0], header);
    assert header[0] == '#';
  }

  /** A resolved thread, a thread whose note is not anchored to a file and a
      thread with one actionable note give exactly that note's block. */
  lemma OnlyAnchoredUnresolvedNoteReported(mrId: int, m: MergeRequest, resolved: Note, unanchored: Note, anchored: Note)
    requires resolved.resolvable && resolved.resolved
    requires unanchored.position.None?
    requires Actionable(anchored)
    ensures CommentsReport(mrId, Success(m), Success([[resolved], [unanchored], [anchored]])) == Success(FormatNote(anchored))
  {
    var discussions := [[resolved], [unanchored], [anchored]];
    DiscussionBlocksOfOne(resolved);
    DiscussionBlocksOfOne(unanchored);
    DiscussionBlocksOfOne(anchored);
    CommentBlocksStep([], [resolved]);
    assert [[resolved]] == [] + [[resolved]];
    CommentBlocksStep([[resolved]], [unanchored]);
    assert [[resolved], [unanchored]] == [[resolved]] + [[unanchored]];
    CommentBlocksStep([[resolved], [unanchored]], [anchored]);
    assert discussions == [[resolved], [unanchored]] + [[anchored]];
    assert CommentBlocks(discussions) == [FormatNote(anchored)];
  }

  /** A one-note discussion gives that note's block when it is actionable
      and nothing otherwise. */
  lemma DiscussionBlocksOfOne(note: Note)
    ensures DiscussionBlocks([note]) == if Actionable(note) then [FormatNote(note)] else []
  {
    assert [note][1..] == [];
  }

  // ---------------------------------------------------------------------
  // get_mr_changes

  const MrPrefix := "MR #"

  function NoChangesSince(iid: int, baseSha: string): (msg: string)
    ensures msg != "" && msg[0] == 'M'
  {
    ConcatAffixes(MrPrefix, IntToString(iid) + " (ベースコミット: " + baseSha + ") からの変更はありません。");
    MrPrefix + IntToString(iid) + " (ベースコミット: " + baseSha + ") からの変更はありません。"
  }

  /** The `base_sha` of the diff_refs record when it is set and non-empty. */
  function BaseSha(refs: map<string, Option<string>>): Option<string>
  {
    if "base_sha" in refs && refs["base_sha"].Some? && refs["base_sha"].value != "" then refs["base_sha"] else None
  }

  /** get_mr_changes: the local diff from the merge request's base commit.
      Only the failure to fetch the merge request (other than "not found")
      is raised; a failing local diff is reported as text. */
  function MrChanges(mrId: int, mr: Result<MergeRequest, ApiError>, repoEnv: Option<string>, repo: Repository): (r: Result<string, string>)
    ensures r.Failure? <==> mr.Failure? && mr.error.OtherError?
  {
    match mr
    case Failure(GetError(_)) => Success(MrNotFound(mrId))
    case Failure(OtherError(e)) => Failure("MRの変更内容の取得に失敗しました: " + e)
    case Success(m) =>
      if m.diffRefs.None? || m.diffRefs.value == map[] then
        Success("MR #" + IntToString(m.iid) + " の差分情報が取得できません。")
      else if BaseSha(m.diffRefs.value).None? then
        Success("MR #" + IntToString(m.iid) + " のベースコミットが特定できません。")
      else
        var baseSha := BaseSha(m.diffRefs.value).value;
        LocalChanges(m.iid, baseSha, DiffReport(baseSha, repoEnv, repo))
  }

  const LocalDiffFailed := "ローカルリポジトリからの差分取得に失敗しました: "

  /** The answer built from the local diff report: its failure as text, the
      "no changes" message for an empty report or the sentinel, the report
      itself otherwise. */
  function LocalChanges(iid: int, baseSha: string, report: Result<string, string>): (r: Result<string, string>)
    ensures r.Success?
    ensures report.Failure? ==> r.value == LocalDiffFailed + report.error
    ensures report == Success("") || report == Success(NoChangedFiles) ==> r.value == NoChangesSince(iid, baseSha)
    ensures report.Success? && report.value != "" && report.value != NoChangedFiles ==> r == report
  {
    match report
    case Failure(e) => Success(LocalDiffFailed + e)
    case Success(d) =>
      if d == "" || d == NoChangedFiles then Success(NoChangesSince(iid, baseSha)) else Success(d)
  }

  /** For a merge request with a base commit and a readable repository, the
      "no changes" message is given exactly when the name-status listing has
      no usable line, whitespace-only listings included; otherwise the
      report is the blocks of the changed files. */
  lemma MrChangesNoChangesIff(mrId: int, m: MergeRequest, baseSha: string, repoEnv: Option<string>, repo: Repository)
    requires m.diffRefs.Some? && BaseSha(m.diffRefs.value) == Some(baseSha)
    requires GitRepoPath(repoEnv, repo).Success? && repo.nameStatus(baseSha).Success?
    ensures var index := Strip(repo.nameStatus(baseSha).value);
      && (MrChanges(mrId, Success(m), repoEnv, repo) == Success(NoChangesSince(m.iid, baseSha))
          <==> DiffEntries(Split(index, '\n')) == [])
      && (DiffEntries(Split(index, '\n')) != [] ==>
          MrChanges(mrId, Success(m), repoEnv, repo)
          == Success(Join("\n\n", DiffBlocks(baseSha, DiffEntries(Split(index, '\n')), repo.fileDiff))))
  {
    assert MrChanges(mrId, Success(m), repoEnv, repo) == LocalChanges(m.iid, baseSha, DiffReport(baseSha, repoEnv, repo)) by {
      assert "base_sha" in m.diffRefs.value;
    }
    DiffReportOutcomes(baseSha, repoEnv, repo);
    var index := Strip(repo.nameStatus(baseSha).value);
    if index == "" {
      assert Split(index, '\n') == [""];
      assert DiffEntries([""]) == [];
    } else {
      var entries := DiffEntries(Split(index, '\n'));
      if entries != [] {
        BlocksReportStartsWithHash(baseSha, entries, repo.fileDiff);
      }
    }
  }

}
