/**
 * The older API service (src/service/githubApi.ts). It runs the same
 * single-commit tree protocol as the current one, with three differences:
 * the token is sent untrimmed, the first request goes out with the header
 * `token undefined` (the token is not passed to it), and the message is
 * chosen inline after the tree exists: a fixed summary for several files,
 * the file's own line with the literal scope `scope` for one file, and a
 * `TypeError` for an empty batch, which stops the run before the commit.
 */
module LegacyGithubApi {
  import opened Wrappers
  import opened Strings
  import opened Types
  import opened GitHubRest
  import opened GitRemote
  import opened CommitProtocol

  /** The `message` of the `TypeError` that reading `files[0].commitType` of an empty batch raises. */
  const NoFirstFile := "Cannot read properties of undefined (reading 'commitType')"

  /** The commit message of the older service; reading `files[0]` of an empty batch throws. */
  function LegacyCommitMessage(files: seq<RepoFile>): (r: Result<string, string>)
    ensures r.Failure? <==> |files| == 0
    ensures r.Failure? ==> r.error == NoFirstFile
    ensures |files| > 1 ==> r.value == "chore: update " + NatToString(|files|) + " files"
    ensures |files| == 1 ==> r.value == Show(files[0].commitType) + "(scope): " + Description(files[0])
  {
    if |files| > 1 then Success("chore: update " + NatToString(|files|) + " files")
    else if |files| == 1 then Success(Show(files[0].commitType) + "(scope): " + Description(files[0]))
    else Failure(NoFirstFile)
  }

  /** With several files the message depends only on how many there are: types, paths and messages are ignored. */
  lemma LegacyMessageIgnoresFiles(a: seq<RepoFile>, b: seq<RepoFile>)
    requires |a| == |b| > 1
    ensures LegacyCommitMessage(a) == LegacyCommitMessage(b)
  {
  }

  /** The count in a multi-file message reads back as the number of files. */
  lemma LegacyMessageCountsFiles(files: seq<RepoFile>)
    requires |files| > 1
    ensures var m := LegacyCommitMessage(files).value;
      var digits := m[|"chore: update "|..|m| - |" files"|];
      IsDigits(digits) && DecimalValue(digits) == |files|
  {
    var m := LegacyCommitMessage(files).value;
    var n := NatToString(|files|);
    assert m[|"chore: update "|..|m| - |" files"|] == n;
    NatToStringValue(|files|);
  }

  /** With one file the scope is the literal word `scope`: the path never reaches the message. */
  lemma LegacyMessageIgnoresPath(f: RepoFile, path: string)
    ensures LegacyCommitMessage([f]) == LegacyCommitMessage([f.(path := path)])
    ensures LegacyCommitMessage([f]).value[|Show(f.commitType)|..|Show(f.commitType)| + 9] == "(scope): "
  {
  }

  /** The run of the older service: the first request carries `token undefined`, the others the token as given. */
  function LegacyJob(branch: string, token: string, files: seq<RepoFile>): (job: Job)
    ensures job.refAuth == "token undefined" && job.auth == "token " + token
    ensures job.branch == branch && job.files == files
  {
    Job(LegacyAuthHeader(None), LegacyAuthHeader(Some(token)), branch, files)
  }

  /**
   * `commitMultipleFiles` of the older service. A non-empty batch runs the
   * whole plan with the inline message, stopping at the first rejection,
   * and the branch moves only when every request was accepted. An empty
   * batch runs the tree stage (the two reads and the tree creation) and
   * then fails on `files[0]`: it never creates a commit and never moves
   * the branch.
   */
  method CommitMultipleFiles(remote: Remote, branch: string, token: string, files: seq<RepoFile>)
    returns (r: Result<Sha, string>, ghost k: nat)
    requires remote.Valid()
    modifies remote`log, remote`store, remote`head
    ensures remote.Valid()
    ensures |files| > 0 ==>
      RanCommit(LegacyJob(branch, token, files), LegacyCommitMessage(files).value,
                BaseOf(old(remote.store), old(remote.head)), remote.reply,
                old(remote.log), old(remote.store), old(remote.head),
                remote.log, remote.store, remote.head, r, k)
    ensures |files| == 0 ==>
      var base := BaseOf(old(remote.store), old(remote.head));
      && Ran(TreePlan(LegacyJob(branch, token, files), base), TreeObjects(LegacyJob(branch, token, files), base), 3,
             remote.reply, old(remote.log), old(remote.store), remote.log, remote.store, k)
      && remote.head == old(remote.head) && r.Failure?
      && r.error == (if k == 3 then NoFirstFile else ErrorText(Answer(remote.reply, |old(remote.log)| + k).body))
  {
    var job := LegacyJob(branch, token, files);
    ghost var log0, store0, head0 := remote.log, remote.store, remote.head;
    ghost var base := BaseOf(remote.store, remote.head);
    var tree;
    ghost var built;
    tree, built := BuildTree(remote, job);
    var message := LegacyCommitMessage(files);
    if tree.Failure? {
      if |files| > 0 {
        TreeStageFailureEndsRun(job, message.value, base, remote.reply, log0, store0, head0, remote.log, remote.store, tree, built);
      }
      return Failure(tree.error), built;
    }
    if message.Failure? {
      return Failure(message.error), built;
    }
    ghost var log1, store1 := remote.log, remote.store;
    var done;
    ghost var finished;
    done, finished := FinishCommit(remote, job, message.value, tree.value.0, tree.value.1);
    FinishStageEndsRun(job, message.value, base, remote.reply, log0, store0, head0, log1, store1,
                       remote.log, remote.store, remote.head, done, finished);
    r, k := done, |files| + 3 + finished;
  }
}
