/**
 * The single-commit tree protocol shared by both revisions of the API
 * service: read the branch tip, read the tip commit's tree, create one blob
 * per file, one tree on top of the tip's tree, one commit whose only parent
 * is the tip, and finally move the branch. Both revisions issue the first
 * four stages with the same helpers, so the request plan, the objects a run
 * appends and the tree-building stage are defined here once.
 */
module CommitProtocol {
  import opened Wrappers
  import opened Types
  import opened GitHubRest
  import opened GitRemote

  /** `{ path: file.path, sha: await createBlob(...) }`: one created blob per file. */
  datatype FileBlob = FileBlob(path: string, sha: Sha)

  const FileMode := "100644"

  /** `fileBlobs.map(blob => ({ path: blob.path, mode: '100644', type: 'blob', sha: blob.sha }))`. */
  function TreeEntries(blobs: seq<FileBlob>): (entries: seq<TreeEntry>)
    ensures |entries| == |blobs|
    ensures forall i :: 0 <= i < |blobs| ==>
      entries[i] == TreeEntry(blobs[i].path, FileMode, "blob", blobs[i].sha)
    decreases |blobs|
  {
    if blobs == [] then []
    else [TreeEntry(blobs[0].path, FileMode, "blob", blobs[0].sha)] + TreeEntries(blobs[1..])
  }

  /** The blobs the protocol creates, in file order, when the store holds `first` objects before them. */
  function FileBlobs(files: seq<RepoFile>, first: Sha): (blobs: seq<FileBlob>)
    ensures |blobs| == |files|
    ensures forall i :: 0 <= i < |files| ==> blobs[i].path == files[i].path
  {
    seq(|files|, i requires 0 <= i < |files| => FileBlob(files[i].path, first + i))
  }

  /** What one run is asked to do: the header of the first request, the header of the others, the branch and the batch. */
  datatype Job = Job(refAuth: string, auth: string, branch: string, files: seq<RepoFile>)

  /** The remote as a run finds it: the tip commit, the tip's tree, and how many objects the store holds. */
  datatype Base = Base(parent: Sha, baseTree: Sha, size: nat)

  /** The tip commit's tree. */
  function BaseTree(store: seq<GitObject>, head: Sha): Sha
    requires head < |store| && store[head].Commit?
  {
    store[head].tree
  }

  /** The remote's state at the start of a run. */
  function BaseOf(store: seq<GitObject>, head: Sha): Base
    requires head < |store| && store[head].Commit?
  {
    Base(head, BaseTree(store, head), |store|)
  }

  /** The sha of the tree a successful run creates: it follows the blobs. */
  function NewTreeSha(job: Job, base: Base): Sha
  {
    base.size + |job.files|
  }

  /** The `j`-th request up to the tree: ref, parent commit, one blob per file, then the tree. */
  function TreeStep(job: Job, base: Base, j: nat): Request
    requires j < |job.files| + 3
  {
    if j == 0 then Request(job.refAuth, GetRef(job.branch))
    else if j == 1 then Request(job.auth, GetCommit(base.parent))
    else if j < 2 + |job.files| then Request(job.auth, CreateBlob(Base64(job.files[j - 2].content)))
    else Request(job.auth, CreateTree(base.baseTree, TreeEntries(FileBlobs(job.files, base.size))))
  }

  /** The `j`-th request of a complete run: the tree stage, then the commit, then the ref update. */
  function Step(job: Job, message: string, base: Base, j: nat): Request
    requires j < |job.files| + 5
  {
    if j < |job.files| + 3 then TreeStep(job, base, j)
    else if j == |job.files| + 3 then Request(job.auth, CreateCommit(message, NewTreeSha(job, base), [base.parent]))
    else Request(job.auth, UpdateRef(job.branch, NewTreeSha(job, base) + 1))
  }

  /** The requests up to and including the tree creation, in the order they are issued. */
  function TreePlan(job: Job, base: Base): (plan: seq<Request>)
    ensures |plan| == |job.files| + 3
  {
    seq(|job.files| + 3, j requires 0 <= j < |job.files| + 3 => TreeStep(job, base, j))
  }

  /** Every request of a successful run, in the order they are issued. */
  function Plan(job: Job, message: string, base: Base): (plan: seq<Request>)
    ensures |plan| == |job.files| + 5
  {
    seq(|job.files| + 5, j requires 0 <= j < |job.files| + 5 => Step(job, message, base, j))
  }

  /** The `j`-th object a run creates: the blobs in file order, then the tree, then the commit. */
  function ObjectAt(job: Job, message: string, base: Base, j: nat): GitObject
    requires j < |job.files| + 2
  {
    if j < |job.files| then Blob(job.files[j].content)
    else if j == |job.files| then Tree(base.baseTree, TreeEntries(FileBlobs(job.files, base.size)))
    else Commit(message, NewTreeSha(job, base), [base.parent])
  }

  /** The objects a successful run appends to the store. */
  function Objects(job: Job, message: string, base: Base): (objs: seq<GitObject>)
    ensures |objs| == |job.files| + 2
  {
    seq(|job.files| + 2, j requires 0 <= j < |job.files| + 2 => ObjectAt(job, message, base, j))
  }

  /** The objects the tree stage appends: the blobs, then the tree. */
  function TreeObjects(job: Job, base: Base): (objs: seq<GitObject>)
    ensures |objs| == |job.files| + 1
  {
    seq(|job.files| + 1, j requires 0 <= j < |job.files| + 1 => ObjectAt(job, "", base, j))
  }

  /** How many objects the first `k` requests create: none for the two reads, one per later request, at most `m`. */
  function Created(k: nat, m: nat): (c: nat)
    ensures c <= m
  {
    if k <= 2 then 0 else if k - 2 <= m then k - 2 else m
  }

  /**
   * What running `plan` with stop-on-first-failure leaves behind when the
   * run issues at most `limit` requests and the first `k` were accepted:
   * request `k` was rejected unless the run got to its end, the log gained
   * the accepted requests and the rejected one, and the store gained the
   * objects of the accepted creations.
   */
  ghost predicate Ran(plan: seq<Request>, objects: seq<GitObject>, limit: nat, reply: seq<Reply>,
    log0: seq<Request>, store0: seq<GitObject>, log: seq<Request>, store: seq<GitObject>, k: nat)
  {
    && k <= limit <= |plan|
    && AllAccepted(reply, |log0|, k)
    && (k < limit ==> Answer(reply, |log0| + k).Reject?)
    && log == log0 + plan[..if k < limit then k + 1 else k]
    && store == store0 + objects[..Created(k, |objects|)]
  }

  /**
   * What the tree stage leaves behind: it ran as far as its `k`-th request;
   * it succeeds exactly when every request was accepted, with the tip and the
   * new tree, and otherwise reports the first rejection.
   */
  ghost predicate BuiltTree(job: Job, base: Base, reply: seq<Reply>, log0: seq<Request>, store0: seq<GitObject>,
    log: seq<Request>, store: seq<GitObject>, r: Result<(Sha, Sha), string>, k: nat)
  {
    && Ran(TreePlan(job, base), TreeObjects(job, base), |job.files| + 3, reply, log0, store0, log, store, k)
    && (r.Success? <==> k == |job.files| + 3)
    && (r.Success? ==> r.value == (base.parent, NewTreeSha(job, base)))
    && (r.Failure? ==> r.error == ErrorText(Answer(reply, |log0| + k).body))
  }

  /** How far a run got is determined by the remote's answers alone: it stops at the first rejection. */
  lemma RanStopsAtFirstRejection(plan: seq<Request>, objects: seq<GitObject>, limit: nat, reply: seq<Reply>,
    log0: seq<Request>, store0: seq<GitObject>, log: seq<Request>, store: seq<GitObject>, k: nat)
    requires Ran(plan, objects, limit, reply, log0, store0, log, store, k)
    ensures k == LeadingAccepts(reply, |log0|, limit)
  {
    LeadingAcceptsIs(reply, |log0|, limit, k);
  }

  /** One more request: a record that held a prefix of `s` holds one more element of it. */
  lemma PrefixStep<T>(a: seq<T>, s: seq<T>, k: nat)
    requires k < |s|
    ensures a + s[..k] + [s[k]] == a + s[..k + 1]
  {
    assert s[..k + 1] == s[..k] + [s[k]];
  }

  /** A prefix reaching past the end of `a` is `a` followed by a prefix of `b`. */
  lemma PrefixOfConcat<T>(a: seq<T>, b: seq<T>, c: nat)
    requires c <= |b|
    ensures (a + b)[..|a| + c] == a + b[..c]
  {
  }

  /** The tree stage is the beginning of a complete run, both in requests and in objects. */
  lemma TreePlanIsPrefix(job: Job, message: string, base: Base)
    ensures Plan(job, message, base)[..|job.files| + 3] == TreePlan(job, base)
    ensures Objects(job, message, base)[..|job.files| + 1] == TreeObjects(job, base)
  {
    assert Objects(job, message, base)[..|job.files| + 1] == TreeObjects(job, base);
  }

  /** In a plan the ref update is the last request and the only one that moves a ref. */
  lemma RefUpdateIsLast(job: Job, message: string, base: Base)
    ensures var plan := Plan(job, message, base);
      forall j :: 0 <= j < |plan| ==> (plan[j].call.UpdateRef? <==> j == |plan| - 1)
  {
  }

  /**
   * The central guarantee: a prefix of the plan that contains the ref update
   * is the whole plan, so the branch can only move once every earlier
   * request was accepted.
   */
  lemma RefMovesOnlyAfterEveryStep(job: Job, message: string, base: Base, m: nat)
    requires m <= |job.files| + 5
    ensures var plan := Plan(job, message, base);
      (exists j :: 0 <= j < m && plan[..m][j].call.UpdateRef?) <==> m == |plan|
  {
    var plan := Plan(job, message, base);
    RefUpdateIsLast(job, message, base);
    if m == |plan| {
      assert plan[..m][m - 1].call.UpdateRef?;
    }
  }

  /** The tree a complete run creates has the tip's tree as base and one entry per file, in file order. */
  lemma TreeHasOneEntryPerFile(job: Job, message: string, base: Base)
    ensures var tree := Objects(job, message, base)[|job.files|];
      && tree.Tree? && tree.baseTree == base.baseTree
      && |tree.entries| == |job.files|
      && forall i :: 0 <= i < |job.files| ==>
           tree.entries[i] == TreeEntry(job.files[i].path, FileMode, "blob", base.size + i)
  {
  }

  /** The commit a complete run creates points at the new tree and has the old tip as its only parent. */
  lemma CommitOnTopOfTip(job: Job, message: string, base: Base)
    ensures Objects(job, message, base)[|job.files| + 1] == Commit(message, NewTreeSha(job, base), [base.parent])
    ensures Objects(job, message, base)[NewTreeSha(job, base) - base.size].Tree?
  {
  }

  /** The blob requests of a batch, in file order. */
  function BlobRequests(auth: string, files: seq<RepoFile>): (reqs: seq<Request>)
    ensures |reqs| == |files|
  {
    seq(|files|, i requires 0 <= i < |files| => Request(auth, CreateBlob(Base64(files[i].content))))
  }

  /** The blobs of a batch, in file order. */
  function BlobObjects(files: seq<RepoFile>): (objs: seq<GitObject>)
    ensures |objs| == |files|
  {
    seq(|files|, i requires 0 <= i < |files| => Blob(files[i].content))
  }

  /** The blob stage sits between the two reads and the tree creation, in requests and in objects. */
  lemma BlobStageInPlan(job: Job, base: Base, m: nat)
    requires m <= |job.files|
    ensures TreePlan(job, base)[..2 + m] == TreePlan(job, base)[..2] + BlobRequests(job.auth, job.files)[..m]
    ensures TreeObjects(job, base)[..m] == BlobObjects(job.files)[..m]
  {
    var plan := TreePlan(job, base);
    assert forall j :: 2 <= j < 2 + m ==> plan[j] == BlobRequests(job.auth, job.files)[j - 2];
  }

  /** A blob stage that stopped at file `m` ends the tree stage there. */
  lemma StoppedInBlobStage(job: Job, base: Base, reply: seq<Reply>,
    log0: seq<Request>, store0: seq<GitObject>, log: seq<Request>, store: seq<GitObject>,
    r: Result<(Sha, Sha), string>, m: nat)
    requires m < |job.files|
    requires AllAccepted(reply, |log0|, 2) && AllAccepted(reply, |log0| + 2, m)
    requires Answer(reply, |log0| + 2 + m).Reject?
    requires r == Failure(ErrorText(Answer(reply, |log0| + 2 + m).body))
    requires log == log0 + TreePlan(job, base)[..2] + BlobRequests(job.auth, job.files)[..m + 1]
    requires store == store0 + BlobObjects(job.files)[..m]
    ensures BuiltTree(job, base, reply, log0, store0, log, store, r, 2 + m)
  {
    BlobStageInPlan(job, base, m + 1);
    BlobStageInPlan(job, base, m);
    AcceptedThen(reply, |log0|, 2, m);
  }

  /** A completed blob stage leaves the run just before the tree creation. */
  lemma FinishedBlobStage(job: Job, base: Base, reply: seq<Reply>,
    log0: seq<Request>, store0: seq<GitObject>, log: seq<Request>, store: seq<GitObject>)
    requires AllAccepted(reply, |log0|, 2) && AllAccepted(reply, |log0| + 2, |job.files|)
    requires log == log0 + TreePlan(job, base)[..2] + BlobRequests(job.auth, job.files)
    requires store == store0 + BlobObjects(job.files)
    ensures AllAccepted(reply, |log0|, 2 + |job.files|)
    ensures log + [TreePlan(job, base)[2 + |job.files|]] == log0 + TreePlan(job, base)
    ensures store + [TreeObjects(job, base)[|job.files|]] == store0 + TreeObjects(job, base)
  {
    var plan, objects := TreePlan(job, base), TreeObjects(job, base);
    BlobStageInPlan(job, base, |job.files|);
    AcceptedThen(reply, |log0|, 2, |job.files|);
    assert BlobRequests(job.auth, job.files)[..|job.files|] == BlobRequests(job.auth, job.files);
    assert BlobObjects(job.files)[..|job.files|] == BlobObjects(job.files);
    PrefixStep(log0, plan, 2 + |job.files|);
    PrefixStep(store0, objects, |job.files|);
    assert plan[..|plan|] == plan && objects[..|objects|] == objects;
  }

  /** A run rejected at one of the two reads stops there, with nothing created. */
  lemma StoppedInReads(job: Job, base: Base, reply: seq<Reply>,
    log0: seq<Request>, store0: seq<GitObject>, log: seq<Request>, r: Result<(Sha, Sha), string>, k: nat)
    requires k < 2 && AllAccepted(reply, |log0|, k) && Answer(reply, |log0| + k).Reject?
    requires log == log0 + TreePlan(job, base)[..k + 1]
    requires r == Failure(ErrorText(Answer(reply, |log0| + k).body))
    ensures BuiltTree(job, base, reply, log0, store0, log, store0, r, k)
  {
    assert store0 + TreeObjects(job, base)[..0] == store0;
  }

  /** The tree creation ends the tree stage: rejected, the run stops there; accepted, the whole stage ran. */
  lemma EndOfTreeStage(job: Job, base: Base, reply: seq<Reply>,
    log0: seq<Request>, store0: seq<GitObject>, log: seq<Request>, store: seq<GitObject>,
    r: Result<(Sha, Sha), string>, accepted: bool)
    requires AllAccepted(reply, |log0|, 2 + |job.files|)
    requires Answer(reply, |log0| + 2 + |job.files|).Accept? <==> accepted
    requires accepted ==> r == Success((base.parent, NewTreeSha(job, base)))
    requires !accepted ==> r == Failure(ErrorText(Answer(reply, |log0| + 2 + |job.files|).body))
    requires log == log0 + TreePlan(job, base)
    requires accepted ==> store == store0 + TreeObjects(job, base)
    requires !accepted ==> store == store0 + BlobObjects(job.files)
    ensures BuiltTree(job, base, reply, log0, store0, log, store, r,
                      if accepted then |job.files| + 3 else |job.files| + 2)
  {
    var plan, objects := TreePlan(job, base), TreeObjects(job, base);
    BlobStageInPlan(job, base, |job.files|);
    assert BlobObjects(job.files)[..|job.files|] == BlobObjects(job.files);
    assert plan[..|plan|] == plan && objects[..|objects|] == objects;
  }

  /** The tree request and object of the plan are the ones the blob shas give. */
  lemma TreeStepIs(job: Job, base: Base)
    ensures TreePlan(job, base)[2 + |job.files|]
      == Request(job.auth, CreateTree(base.baseTree, TreeEntries(FileBlobs(job.files, base.size))))
    ensures [TreeObjects(job, base)[|job.files|]]
      == ObjectOf(CreateTree(base.baseTree, TreeEntries(FileBlobs(job.files, base.size))))
  {
  }

  /**
   * The `Promise.all` stage: one `createBlob` per file, run in file order and
   * stopping at the first failure. It returns the path and blob sha of every
   * file, in file order; `k` is how many blobs were created.
   */
  method CreateBlobs(remote: Remote, auth: string, files: seq<RepoFile>)
    returns (r: Result<seq<FileBlob>, string>, ghost k: nat)
    requires remote.Valid()
    modifies remote`log, remote`store
    ensures remote.Valid() && remote.head == old(remote.head)
    ensures k <= |files| && AllAccepted(remote.reply, |old(remote.log)|, k)
    ensures k < |files| ==> Answer(remote.reply, |old(remote.log)| + k).Reject?
    ensures remote.log == old(remote.log) + BlobRequests(auth, files)[..if k < |files| then k + 1 else k]
    ensures remote.store == old(remote.store) + BlobObjects(files)[..k]
    ensures r.Success? <==> k == |files|
    ensures r.Success? ==> r.value == FileBlobs(files, |old(remote.store)|)
    ensures r.Failure? ==> r.error == ErrorText(Answer(remote.reply, |old(remote.log)| + k).body)
  {
    ghost var log0, store0 := remote.log, remote.store;
    ghost var reqs, objs := BlobRequests(auth, files), BlobObjects(files);
    var blobs: seq<FileBlob> := [];
    var i := 0;
    while i < |files|
      invariant 0 <= i <= |files|
      invariant remote.Valid() && remote.head == old(remote.head)
      invariant remote.log == log0 + reqs[..i]
      invariant remote.store == store0 + objs[..i]
      invariant AllAccepted(remote.reply, |log0|, i)
      invariant blobs == FileBlobs(files, |store0|)[..i]
    {
      PrefixStep(log0, reqs, i);
      PrefixStep(store0, objs, i);
      assert |remote.log| == |log0| + i;
      var sha := remote.Create(auth, CreateBlob(Base64(files[i].content)));
      if sha.Failure? {
        return Failure(sha.error), i;
      }
      blobs := blobs + [FileBlob(files[i].path, sha.value)];
      i := i + 1;
    }
    assert reqs[..|files|] == reqs && objs[..|files|] == objs;
    r, k := Success(blobs), |files|;
  }

  /**
   * Steps 1 and 2 of `commitMultipleFiles`: the sha the branch names, then
   * the tree of that commit. It returns both; `k` is how many of the two
   * reads were accepted.
   */
  method ReadTip(remote: Remote, job: Job) returns (r: Result<(Sha, Sha), string>, ghost k: nat)
    requires remote.Valid()
    modifies remote`log
    ensures remote.Valid()
    ensures k <= 2 && AllAccepted(remote.reply, |old(remote.log)|, k)
    ensures k < 2 ==> Answer(remote.reply, |old(remote.log)| + k).Reject?
    ensures remote.log == old(remote.log)
      + TreePlan(job, BaseOf(remote.store, remote.head))[..if k < 2 then k + 1 else 2]
    ensures r.Success? <==> k == 2
    ensures r.Success? ==> r.value == (remote.head, BaseTree(remote.store, remote.head))
    ensures r.Failure? ==> r.error == ErrorText(Answer(remote.reply, |old(remote.log)| + k).body)
  {
    ghost var plan := TreePlan(job, BaseOf(remote.store, remote.head));
    var parent := remote.LatestCommitSha(job.refAuth, job.branch);
    if parent.Failure? {
      assert plan[..1] == [plan[0]];
      return Failure(parent.error), 0;
    }
    var baseTree := remote.CommitTree(job.auth, parent.value);
    assert plan[..2] == [plan[0], plan[1]];
    if baseTree.Failure? {
      return Failure(baseTree.error), 1;
    }
    r, k := Success((parent.value, baseTree.value)), 2;
  }

  /**
   * Steps 1 to 4 of `commitMultipleFiles`, identical in both revisions: the
   * tip sha, the tip's tree, the blobs, and the new tree with the tip's tree
   * as its base. It returns the parent sha and the new tree's sha; `k` is
   * how many requests were accepted.
   */
  method BuildTree(remote: Remote, job: Job) returns (r: Result<(Sha, Sha), string>, ghost k: nat)
    requires remote.Valid()
    modifies remote`log, remote`store
    ensures remote.Valid() && remote.head == old(remote.head)
    ensures BuiltTree(job, BaseOf(old(remote.store), old(remote.head)), remote.reply,
                      old(remote.log), old(remote.store), remote.log, remote.store, r, k)
  {
    ghost var log0, store0 := remote.log, remote.store;
    ghost var base := BaseOf(remote.store, remote.head);
    var tip;
    ghost var read;
    tip, read := ReadTip(remote, job);
    if tip.Failure? {
      r, k := Failure(tip.error), read;
      StoppedInReads(job, base, remote.reply, log0, store0, remote.log, r, k);
      return;
    }
    var parent, baseTree := tip.value.0, tip.value.1;

    var blobs;
    ghost var m;
    blobs, m := CreateBlobs(remote, job.auth, job.files);
    if blobs.Failure? {
      r, k := Failure(blobs.error), 2 + m;
      StoppedInBlobStage(job, base, remote.reply, log0, store0, remote.log, remote.store, r, m);
      return;
    }
    FinishedBlobStage(job, base, remote.reply, log0, store0, remote.log, remote.store);
    TreeStepIs(job, base);
    var newTree := remote.Create(job.auth, CreateTree(baseTree, TreeEntries(blobs.value)));
    if newTree.Failure? {
      r, k := Failure(newTree.error), 2 + |job.files|;
    } else {
      r, k := Success((parent, newTree.value)), |job.files| + 3;
    }
    EndOfTreeStage(job, base, remote.reply, log0, store0, remote.log, remote.store, r, newTree.Success?);
  }

  /** The two requests after the tree stage: the commit on top of the tip, then the ref update to it. */
  function FinishRequests(job: Job, message: string, parent: Sha, tree: Sha, commit: Sha): seq<Request>
  {
    [Request(job.auth, CreateCommit(message, tree, [parent])), Request(job.auth, UpdateRef(job.branch, commit))]
  }

  /**
   * Steps 5 and 6 of `commitMultipleFiles`, identical in both revisions:
   * create the commit with the new tree and the tip as only parent, then
   * move the branch to it. `k` is how many of the two requests were accepted;
   * the branch moves only when both were.
   */
  method FinishCommit(remote: Remote, job: Job, message: string, parent: Sha, tree: Sha)
    returns (r: Result<Sha, string>, ghost k: nat)
    requires remote.Valid()
    modifies remote`log, remote`store, remote`head
    ensures remote.Valid()
    ensures k <= 2 && AllAccepted(remote.reply, |old(remote.log)|, k)
    ensures k < 2 ==> Answer(remote.reply, |old(remote.log)| + k).Reject?
    ensures remote.log == old(remote.log)
      + FinishRequests(job, message, parent, tree, |old(remote.store)|)[..if k < 2 then k + 1 else k]
    ensures remote.store == old(remote.store) + [Commit(message, tree, [parent])][..if k == 0 then 0 else 1]
    ensures r.Success? <==> k == 2
    ensures r.Success? ==> r.value == |old(remote.store)| && remote.head == r.value
    ensures r.Failure? ==>
      remote.head == old(remote.head) && r.error == ErrorText(Answer(remote.reply, |old(remote.log)| + k).body)
  {
    ghost var reqs := FinishRequests(job, message, parent, tree, |remote.store|);
    var commit := remote.Create(job.auth, CreateCommit(message, tree, [parent]));
    if commit.Failure? {
      assert reqs[..1] == [reqs[0]];
      return Failure(commit.error), 0;
    }
    assert remote.NamesCommit(commit.value);
    var updated := remote.UpdateBranchRef(job.auth, job.branch, commit.value);
    assert reqs[..2] == reqs;
    if updated.Failure? {
      return Failure(updated.error), 1;
    }
    r, k := Success(commit.value), 2;
  }

  /**
   * What a whole run leaves behind: it ran the plan as far as its `k`-th
   * request; it succeeds exactly when every request was accepted, and then
   * the branch names the new commit; otherwise the branch is where it was
   * and the first rejection is reported.
   */
  ghost predicate RanCommit(job: Job, message: string, base: Base, reply: seq<Reply>,
    log0: seq<Request>, store0: seq<GitObject>, head0: Sha,
    log: seq<Request>, store: seq<GitObject>, head: Sha, r: Result<Sha, string>, k: nat)
  {
    && Ran(Plan(job, message, base), Objects(job, message, base), |job.files| + 5, reply, log0, store0, log, store, k)
    && (r.Success? <==> k == |job.files| + 5)
    && (r.Success? ==> r.value == NewTreeSha(job, base) + 1 && head == r.value)
    && (r.Failure? ==> head == head0 && r.error == ErrorText(Answer(reply, |log0| + k).body))
  }

  /**
   * The key guarantee of the protocol: a run that moved the branch issued
   * every request of the plan, each accepted, and created every object;
   * and how far any run gets is fixed by the remote's answers alone.
   */
  lemma BranchMovesOnlyAfterCompleteRun(job: Job, message: string, base: Base, reply: seq<Reply>,
    log0: seq<Request>, store0: seq<GitObject>, head0: Sha,
    log: seq<Request>, store: seq<GitObject>, head: Sha, r: Result<Sha, string>, k: nat)
    requires RanCommit(job, message, base, reply, log0, store0, head0, log, store, head, r, k)
    ensures k == LeadingAccepts(reply, |log0|, |job.files| + 5)
    ensures head != head0 ==>
      && r.Success? && AllAccepted(reply, |log0|, |job.files| + 5)
      && log == log0 + Plan(job, message, base) && store == store0 + Objects(job, message, base)
  {
    var plan, objects := Plan(job, message, base), Objects(job, message, base);
    RanStopsAtFirstRejection(plan, objects, |job.files| + 5, reply, log0, store0, log, store, k);
    assert plan[..|plan|] == plan && objects[..|objects|] == objects;
  }

  /** The tree stage never asks to move a ref. */
  lemma TreeStageLeavesRefAlone(job: Job, base: Base)
    ensures forall j :: 0 <= j < |TreePlan(job, base)| ==> !TreePlan(job, base)[j].call.UpdateRef?
  {
  }

  /** A complete run is the tree stage followed by the commit and the ref update. */
  lemma PlanIsTreeStageThenFinish(job: Job, message: string, base: Base)
    ensures Plan(job, message, base)
      == TreePlan(job, base) + FinishRequests(job, message, base.parent, NewTreeSha(job, base), NewTreeSha(job, base) + 1)
    ensures Objects(job, message, base)
      == TreeObjects(job, base) + [Commit(message, NewTreeSha(job, base), [base.parent])]
  {
    var n := |job.files|;
    var plan, tplan := Plan(job, message, base), TreePlan(job, base);
    var finish := FinishRequests(job, message, base.parent, NewTreeSha(job, base), NewTreeSha(job, base) + 1);
    assert forall j :: 0 <= j < n + 5 ==> plan[j] == (tplan + finish)[j];
    var objects, tobjects := Objects(job, message, base), TreeObjects(job, base);
    assert forall j :: 0 <= j < n + 2 ==> objects[j] == (tobjects + [Commit(message, NewTreeSha(job, base), [base.parent])])[j];
  }

  /** A tree stage that failed ends the whole run there. */
  lemma TreeStageFailureEndsRun(job: Job, message: string, base: Base, reply: seq<Reply>,
    log0: seq<Request>, store0: seq<GitObject>, head0: Sha, log: seq<Request>, store: seq<GitObject>,
    r: Result<(Sha, Sha), string>, k: nat)
    requires BuiltTree(job, base, reply, log0, store0, log, store, r, k) && r.Failure?
    ensures RanCommit(job, message, base, reply, log0, store0, head0, log, store, head0, Failure(r.error), k)
  {
    var plan, tplan := Plan(job, message, base), TreePlan(job, base);
    TreePlanIsPrefix(job, message, base);
    assert plan[..k + 1] == tplan[..k + 1] by {
      assert plan[..k + 1] == plan[..|job.files| + 3][..k + 1];
    }
    var objects := Objects(job, message, base);
    assert objects[..Created(k, |objects|)] == objects[..|job.files| + 1][..Created(k, |job.files| + 1)];
  }

  /** A completed tree stage followed by the commit and ref stage is a run of the whole plan. */
  lemma FinishStageEndsRun(job: Job, message: string, base: Base, reply: seq<Reply>,
    log0: seq<Request>, store0: seq<GitObject>, head0: Sha, log1: seq<Request>, store1: seq<GitObject>,
    log: seq<Request>, store: seq<GitObject>, head: Sha, r: Result<Sha, string>, k: nat)
    requires |store0| == base.size
    requires BuiltTree(job, base, reply, log0, store0, log1, store1, Success((base.parent, NewTreeSha(job, base))), |job.files| + 3)
    requires k <= 2 && AllAccepted(reply, |log1|, k)
    requires k < 2 ==> Answer(reply, |log1| + k).Reject?
    requires log == log1 + FinishRequests(job, message, base.parent, NewTreeSha(job, base), |store1|)[..if k < 2 then k + 1 else k]
    requires store == store1 + [Commit(message, NewTreeSha(job, base), [base.parent])][..if k == 0 then 0 else 1]
    requires r.Success? <==> k == 2
    requires r.Success? ==> r.value == |store1| && head == r.value
    requires r.Failure? ==> head == head0 && r.error == ErrorText(Answer(reply, |log1| + k).body)
    ensures RanCommit(job, message, base, reply, log0, store0, head0, log, store, head, r, |job.files| + 3 + k)
  {
    var n := |job.files|;
    var plan, tplan := Plan(job, message, base), TreePlan(job, base);
    var objects, tobjects := Objects(job, message, base), TreeObjects(job, base);
    var finish := FinishRequests(job, message, base.parent, NewTreeSha(job, base), |store1|);
    assert tplan[..n + 3] == tplan && tobjects[..n + 1] == tobjects;
    PlanIsTreeStageThenFinish(job, message, base);
    AcceptedThen(reply, |log0|, n + 3, k);
    PrefixOfConcat(tplan, finish, if k < 2 then k + 1 else k);
    PrefixOfConcat(tobjects, [Commit(message, NewTreeSha(job, base), [base.parent])], if k == 0 then 0 else 1);
  }

  /**
   * The six steps of `commitMultipleFiles` with a message known up front:
   * the tree stage, then the commit and the ref update. The run stops at
   * the first rejection, and the branch moves to the new commit only when
   * every request was accepted.
   */
  method CommitBatch(remote: Remote, job: Job, message: string) returns (r: Result<Sha, string>, ghost k: nat)
    requires remote.Valid()
    modifies remote`log, remote`store, remote`head
    ensures remote.Valid()
    ensures RanCommit(job, message, BaseOf(old(remote.store), old(remote.head)), remote.reply,
                      old(remote.log), old(remote.store), old(remote.head),
                      remote.log, remote.store, remote.head, r, k)
  {
    ghost var log0, store0, head0 := remote.log, remote.store, remote.head;
    ghost var base := BaseOf(remote.store, remote.head);
    var tree;
    ghost var built;
    tree, built := BuildTree(remote, job);
    if tree.Failure? {
      TreeStageFailureEndsRun(job, message, base, remote.reply, log0, store0, head0, remote.log, remote.store, tree, built);
      return Failure(tree.error), built;
    }
    ghost var log1, store1 := remote.log, remote.store;
    var done;
    ghost var finished;
    done, finished := FinishCommit(remote, job, message, tree.value.0, tree.value.1);
    FinishStageEndsRun(job, message, base, remote.reply, log0, store0, head0, log1, store1,
                       remote.log, remote.store, remote.head, done, finished);
    r, k := done, |job.files| + 3 + finished;
  }
}
