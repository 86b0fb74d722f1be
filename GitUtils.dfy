/** The decision logic of `src/utils/git_utils.py`: the repository-path guard,
    the project name taken from the remote URL, and the assembly of the
    per-file change report from `git diff --name-status`. The working copy
    itself is a `Repository` value whose fields answer the questions the
    tool puts to git and to the file system. */
module GitUtils {
  import opened Wrappers
  import opened Strings
  import opened Seqs

  /** What the tool asks of the local working copy. */
  datatype Repository = Repository(
    pathExists: string -> bool,                           // os.path.exists(path)
    isGitRepo: string -> bool,                            // git.Repo(path) succeeds
    nameStatus: string -> Result<string, string>,         // git diff <base> --name-status
    fileDiff: (string, string) -> Result<string, string>) // git diff <base> <path> --unified=3

  const RepoPathUnset := "BIZTEL_GIT_REPO_PATH環境変数が設定されていません。"

  /** get_git_repo_path; `env` is the value of GIT_REPO_PATH. A missing or
      empty value fails with the same message whatever the file system says,
      so it is rejected before the path is looked at. */
  function GitRepoPath(env: Option<string>, repo: Repository): (r: Result<string, string>)
    ensures env.None? || env.value == "" ==> r == Failure(RepoPathUnset)
    ensures r.Success? <==>
      env.Some? && env.value != "" && repo.pathExists(env.value) && repo.isGitRepo(env.value)
    ensures r.Success? ==> r.value == env.value
  {
    if env.None? || env.value == "" then Failure(RepoPathUnset)
    else if !repo.pathExists(env.value) then
      Failure("指定されたリポジトリパス " + env.value + " が存在しません。")
    else if !repo.isGitRepo(env.value) then
      Failure("指定されたパス " + env.value + " はGitリポジトリではありません。")
    else Success(env.value)
  }

  /** The URL with one trailing ".git" removed, if it has one. */
  function WithoutGitSuffix(url: string): string
  {
    if EndsWith(url, ".git") then url[..|url| - 4] else url
  }

  /** get_project_name_from_remote, applied to the URL of `origin`: the text
      after the last '/' of the URL without its ".git" suffix. */
  function ProjectName(remoteUrl: string): (name: string)
    ensures '/' !in name
    ensures EndsWith(WithoutGitSuffix(remoteUrl), name)
    ensures '/' in WithoutGitSuffix(remoteUrl) ==> EndsWith(WithoutGitSuffix(remoteUrl), "/" + name)
    ensures '/' !in WithoutGitSuffix(remoteUrl) ==> name == WithoutGitSuffix(remoteUrl)
  {
    var trimmed := WithoutGitSuffix(remoteUrl);
    var parts := Split(trimmed, '/');
    SplitLastSuffix(trimmed, '/');
    SplitLastAfterSeparator(trimmed, '/');
    SplitCount(trimmed, '/');
    SplitJoin(trimmed, '/');
    parts[|parts| - 1]
  }

  /** A project URL gives back its last path segment; only one ".git" is
      removed, so a name that itself ends in ".git" keeps it. */
  lemma ProjectNameOfUrl(prefix: string, name: string)
    requires '/' !in name
    ensures ProjectName(prefix + "/" + name + ".git") == name
  {
    var url := prefix + "/" + name + ".git";
    assert url[|url| - 4..] == ".git";
    assert WithoutGitSuffix(url) == prefix + ['/'] + name;
    SplitLastPiece(prefix, name, '/');
  }

  /** get_project_name_from_remote with the failure of get_remote_url. */
  function ProjectNameFromRemote(remoteUrl: Result<string, string>): (r: Result<string, string>)
    ensures r.Success? <==> remoteUrl.Success?
    ensures r.Success? ==> r.value == ProjectName(remoteUrl.value)
    ensures r.Failure? ==> r.error == "プロジェクト名の抽出に失敗しました: " + remoteUrl.error
  {
    match remoteUrl
    case Success(url) => Success(ProjectName(url))
    case Failure(e) => Failure("プロジェクト名の抽出に失敗しました: " + e)
  }

  // ---------------------------------------------------------------------
  // get_diff_from_base

  datatype ChangeKind = Added | Deleted | Renamed | Modified

  /** The kind of change named by a status code, by its first letter. */
  function Classify(code: string): (kind: ChangeKind)
    ensures kind == Added <==> StartsWith(code, "A")
    ensures kind == Deleted <==> StartsWith(code, "D")
    ensures kind == Renamed <==> StartsWith(code, "R")
    ensures kind == Modified <==> code == [] || (code[0] != 'A' && code[0] != 'D' && code[0] != 'R')
  {
    if StartsWith(code, "A") then Added
    else if StartsWith(code, "D") then Deleted
    else if StartsWith(code, "R") then Renamed
    else Modified
  }

  /** The Japanese label of a change kind; each kind has its own. */
  function Label(kind: ChangeKind): (text: string)
    ensures text == "新規追加" <==> kind == Added
    ensures text == "削除" <==> kind == Deleted
    ensures text == "名前変更" <==> kind == Renamed
    ensures text == "変更" <==> kind == Modified
  {
    match kind
    case Added => "新規追加"
    case Deleted => "削除"
    case Renamed => "名前変更"
    case Modified => "変更"
  }

  /** One usable line of name-status output: its status code and the path
      in its second field. */
  datatype Entry = Entry(code: string, path: string)

  /** A line of name-status output: skipped when empty or when it has fewer
      than two tab-separated fields, so exactly when it holds no tab;
      otherwise its first two fields, the path running to the end of the
      line or to the next tab. */
  function ParseLine(line: string): (entry: Option<Entry>)
    ensures entry.None? <==> !HasTab(line)
    ensures entry.Some? ==>
      && '\t' !in entry.value.code && '\t' !in entry.value.path
      && StartsWith(line, entry.value.code + "\t" + entry.value.path)
    ensures entry.Some? ==>
      || line == entry.value.code + "\t" + entry.value.path
      || StartsWith(line, entry.value.code + "\t" + entry.value.path + "\t")
  {
    SplitCount(line, '\t');
    SplitFirstTwo(line, '\t');
    if line == "" then None
    else
      var parts := Split(line, '\t');
      if |parts| < 2 then None else Some(Entry(parts[0], parts[1]))
  }

  predicate HasTab(line: string) { '\t' in line }

  /** An ordinary line `<code>\t<path>` reports its whole path. */
  lemma ParsePlainLine(code: string, path: string)
    requires '\t' !in code && '\t' !in path
    ensures ParseLine(code + "\t" + path) == Some(Entry(code, path))
  {
    SplitAtFirst(code, path, '\t');
    SplitNoSeparator(path, '\t');
  }

  /** A rename line `R<score>\t<old>\t<new>` reports the old path. */
  lemma ParseRenameLine(code: string, oldPath: string, newPath: string)
    requires '\t' !in code && '\t' !in oldPath
    ensures ParseLine(code + "\t" + oldPath + "\t" + newPath) == Some(Entry(code, oldPath))
  {
    var line := code + "\t" + oldPath + "\t" + newPath;
    assert line == code + ['\t'] + (oldPath + ['\t'] + newPath);
    SplitAtFirst(code, oldPath + ['\t'] + newPath, '\t');
    SplitAtFirst(oldPath, newPath, '\t');
  }

  /** The entries of the lines, in order: one per line that holds a tab. */
  function DiffEntries(lines: seq<string>): (entries: seq<Entry>)
    ensures |entries| == |Filter(HasTab, lines)|
    ensures forall k :: 0 <= k < |entries| ==> ParseLine(Filter(HasTab, lines)[k]) == Some(entries[k])
  {
    if lines == [] then []
    else
      LineEntry(lines[0]) + DiffEntries(lines[1..])
  }

  /** The entry of one line, if it has one. */
  function LineEntry(line: string): seq<Entry>
  {
    match ParseLine(line) case Some(e) => [e] case None => []
  }

  lemma {:induction false} DiffEntriesAppend(a: seq<string>, b: seq<string>)
    ensures DiffEntries(a + b) == DiffEntries(a) + DiffEntries(b)
  {
    if a == [] {
      assert a + b == b;
    } else {
      assert (a + b)[1..] == a[1..] + b;
      DiffEntriesAppend(a[1..], b);
      calc {
        DiffEntries(a + b);
        LineEntry(a[0]) + DiffEntries(a[1..] + b);
        LineEntry(a[0]) + (DiffEntries(a[1..]) + DiffEntries(b));
      }
    }
  }

  /** The prefix of every failure of the change report. */
  const DiffFailed := "差分の取得に失敗しました: "
  const FileHeader := "# ファイル: "
  const DiffFence := "\n```diff\n"
  const PlainFence := "\n```\n"
  const FenceEnd := "\n```"

  /** The block for one changed file: its path and change label first, then
      its diff in a `diff` fence, or the reason it failed in a plain one. */
  function FileBlock(path: string, kind: ChangeKind, diff: Result<string, string>): (block: string)
    ensures StartsWith(block, FileHeader + path + " (" + Label(kind) + ")")
    ensures diff.Success? ==> EndsWith(block, DiffFence + diff.value + FenceEnd)
    ensures diff.Failure? ==> EndsWith(block, DiffFailed + diff.error + FenceEnd)
  {
    var head := FileHeader + path + " (" + Label(kind) + ")";
    var tail := match diff
      case Success(d) => DiffFence + d + FenceEnd
      case Failure(e) => PlainFence + (DiffFailed + e + FenceEnd);
    ConcatAffixes(head, tail);
    if diff.Failure? then
      ConcatAffixes(PlainFence, DiffFailed + diff.error + FenceEnd);
      EndsWithPrepend(head, tail, DiffFailed + diff.error + FenceEnd);
      head + tail
    else
      head + tail
  }

  function EntryBlock(base: string, fileDiff: (string, string) -> Result<string, string>, entry: Entry): string
  {
    FileBlock(entry.path, Classify(entry.code), fileDiff(base, entry.path))
  }

  function DiffBlocks(base: string, entries: seq<Entry>, fileDiff: (string, string) -> Result<string, string>): seq<string>
  {
    Map((e: Entry) => EntryBlock(base, fileDiff, e), entries)
  }

  /** A line's block in the terms of the loop of get_diff_from_base: the
      line is skipped when empty or when it splits into fewer than two
      fields. */
  function LoopBlock(base: string, fileDiff: (string, string) -> Result<string, string>, line: string): seq<string>
  {
    var parts := Split(line, '\t');
    if line != "" && |parts| >= 2
    then [FileBlock(parts[1], Classify(parts[0]), fileDiff(base, parts[1]))]
    else []
  }

  /** One more line adds its entry's block, if it has one, at the end. */
  lemma DiffBlocksStep(base: string, fileDiff: (string, string) -> Result<string, string>, lines: seq<string>, i: nat)
    requires i < |lines|
    ensures DiffBlocks(base, DiffEntries(lines[..i + 1]), fileDiff)
      == DiffBlocks(base, DiffEntries(lines[..i]), fileDiff) + LoopBlock(base, fileDiff, lines[i])
  {
    var line := lines[i];
    var f := (e: Entry) => EntryBlock(base, fileDiff, e);
    PrefixStep(lines, i);
    DiffEntriesAppend(lines[..i], [line]);
    assert DiffEntries([line]) == LineEntry(line) by {
      assert [line][1..] == [];
    }
    MapAppend(f, DiffEntries(lines[..i]), LineEntry(line));
    assert Map(f, LineEntry(line)) == LoopBlock(base, fileDiff, line) by {
      match ParseLine(line)
      case Some(e) =>
        assert [e][1..] == [];
      case None =>
    }
  }

  const NoChangedFiles := "変更されたファイルはありません。"

  /** What get_diff_from_base returns or raises. Only a missing repository
      or a failing name-status listing fails; a file whose own diff fails
      still gets a block. */
  function DiffReport(base: string, repoEnv: Option<string>, repo: Repository): (r: Result<string, string>)
    ensures r.Failure? <==> GitRepoPath(repoEnv, repo).Failure? || repo.nameStatus(base).Failure?
  {
    match GitRepoPath(repoEnv, repo)
    case Failure(e) => Failure(DiffFailed + e)
    case Success(_) =>
      match repo.nameStatus(base)
      case Failure(e) => Failure(DiffFailed + e)
      case Success(listing) =>
        var index := Strip(listing);
        if index == "" then Success(NoChangedFiles)
        else Success(Join("\n\n", DiffBlocks(base, DiffEntries(Split(index, '\n')), repo.fileDiff)))
  }

  /** get_diff_from_base. */
  method DiffFromBase(base: string, repoEnv: Option<string>, repo: Repository) returns (r: Result<string, string>)
    ensures r == DiffReport(base, repoEnv, repo)
  {
    var repoPath := GitRepoPath(repoEnv, repo);
    if repoPath.Failure? {
      return Failure(DiffFailed + repoPath.error);
    }
    var listing := repo.nameStatus(base);
    if listing.Failure? {
      return Failure(DiffFailed + listing.error);
    }
    var diffIndex := Strip(listing.value);
    if diffIndex == "" {
      return Success(NoChangedFiles);
    }
    var lines := Split(diffIndex, '\n');
    var changeDetails := ChangeDetails(base, repo.fileDiff, lines);
    return Success(Join("\n\n", changeDetails));
  }

  /** The loop of get_diff_from_base over the name-status lines: one block
      per usable line, in order. */
  method ChangeDetails(base: string, fileDiff: (string, string) -> Result<string, string>, lines: seq<string>)
    returns (changeDetails: seq<string>)
    ensures changeDetails == DiffBlocks(base, DiffEntries(lines), fileDiff)
  {
    changeDetails := [];
    var i := 0;
    while i < |lines|
      invariant 0 <= i <= |lines|
      invariant changeDetails == DiffBlocks(base, DiffEntries(lines[..i]), fileDiff)
    {
      var line := lines[i];
      DiffBlocksStep(base, fileDiff, lines, i);
      if line != "" {
        var parts := Split(line, '\t');
        if |parts| >= 2 {
          var changeTypeCode, filePath := parts[0], parts[1];
          var changeType := Modified;
          if StartsWith(changeTypeCode, "A") {
            changeType := Added;
          } else if StartsWith(changeTypeCode, "D") {
            changeType := Deleted;
          } else if StartsWith(changeTypeCode, "R") {
            changeType := Renamed;
          }
          var diff := fileDiff(base, filePath);
          assert changeType == Classify(changeTypeCode);
          changeDetails := changeDetails + [FileBlock(filePath, changeType, diff)];
        }
      }
      i := i + 1;
    }
    assert lines[..|lines|] == lines;
  }

  /** A report with at least one entry starts with the first block's header. */
  lemma BlocksReportStartsWithHash(base: string, entries: seq<Entry>, fileDiff: (string, string) -> Result<string, string>)
    requires entries != []
    ensures var report := Join("\n\n", DiffBlocks(base, entries, fileDiff));
      report != "" && report[0] == '#'
  {
    var blocks := DiffBlocks(base, entries, fileDiff);
    assert blocks[0] == EntryBlock(base, fileDiff, entries[0]);
    assert blocks[0][0] == '#';
    JoinAffixes("\n\n", blocks);
  }

  /** The sentinel is reported exactly when the stripped listing is empty,
      and an empty report exactly when the listing is not empty but has no
      usable line; the two are never confused. */
  lemma DiffReportOutcomes(base: string, repoEnv: Option<string>, repo: Repository)
    requires GitRepoPath(repoEnv, repo).Success? && repo.nameStatus(base).Success?
    ensures var index := Strip(repo.nameStatus(base).value);
      && (DiffReport(base, repoEnv, repo) == Success(NoChangedFiles) <==> index == "")
      && (DiffReport(base, repoEnv, repo) == Success("") <==> index != "" && DiffEntries(Split(index, '\n')) == [])
  {
    var index := Strip(repo.nameStatus(base).value);
    if index != "" {
      var entries := DiffEntries(Split(index, '\n'));
      var blocks := DiffBlocks(base, entries, repo.fileDiff);
      if entries != [] {
        BlocksReportStartsWithHash(base, entries, repo.fileDiff);
        assert NoChangedFiles[0] != '#';
      }
    }
  }

  /** Changing the outcome of one path's diff changes only the blocks of the
      entries for that path; when that diff fails, their block ends with the
      failure text. */
  lemma FileDiffFailureIsolated(base: string, entries: seq<Entry>,
                                fileDiff: (string, string) -> Result<string, string>,
                                fileDiff': (string, string) -> Result<string, string>, path: string)
    requires forall q :: q != path ==> fileDiff'(base, q) == fileDiff(base, q)
    ensures |DiffBlocks(base, entries, fileDiff')| == |DiffBlocks(base, entries, fileDiff)| == |entries|
    ensures forall k :: 0 <= k < |entries| && entries[k].path != path ==>
      DiffBlocks(base, entries, fileDiff')[k] == DiffBlocks(base, entries, fileDiff)[k]
    ensures forall k :: 0 <= k < |entries| && entries[k].path == path && fileDiff'(base, path).Failure? ==>
      EndsWith(DiffBlocks(base, entries, fileDiff')[k], DiffFailed + fileDiff'(base, path).error + FenceEnd)
  {
  }
}
