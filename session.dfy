/**
 * The state of the `useGitHub` hook (src/hooks/useGitHub.ts) as an object:
 * the configuration fields, the staged file list, the basename index of the
 * last scan, the current notification, the browser storage and the
 * requests the per-file publish flow has sent. Each method is one handler
 * or effect of the hook; what it does to the state is specified by the
 * functions of UseGitHub.
 */
module GitHubSession {
  import opened Wrappers
  import opened Strings
  import opened Types
  import opened UseGitHub

  /** A file picked for upload, with the text the reader produced. */
  datatype Upload = Upload(name: string, content: string)

  class Session {
    var token: string
    var repo: string
    var branch: string
    var username: string
    var storeToken: bool
    /** The staged list, in the order shown. */
    var files: seq<RepoFile>
    /** basename -> full path, from the last scan. */
    var repoFilePaths: map<string, string>
    var notification: Option<Notice>
    /** The browser's local storage. */
    var storage: map<string, string>
    /** Every request the per-file publish flow has sent, oldest first. */
    var calls: seq<HookCall>

    /** The state of the first render, over the storage the browser already holds. */
    constructor (storage: map<string, string>)
      ensures this.storage == storage
      ensures token == "" && repo == "" && branch == "main" && username == "" && !storeToken
      ensures files == [] && repoFilePaths == map[] && notification == None && calls == []
    {
      this.storage := storage;
      token, repo, branch, username, storeToken := "", "", "main", "", false;
      files, repoFilePaths, notification, calls := [], map[], None, [];
    }

    /**
     * The two mount effects, in their order: hydration reads the storage,
     * then the persistence effect runs with the values of the first render
     * (clearing both keys), and runs again once the hydrated values apply.
     */
    method Mount()
      requires token == "" && !storeToken
      modifies this`token, this`storeToken, this`storage
      ensures var restored := Restored(old(storage));
        && token == (if restored.Some? then restored.value else "")
        && storeToken == restored.Some?
      ensures storage == Persisted(old(storage), token, storeToken)
    {
      var restored := Restored(storage);
      PersistToken();
      if restored.Some? {
        PersistOverwrites(old(storage), "", false, restored.value, true);
        token, storeToken := restored.value, true;
        PersistToken();
      }
    }

    /** The persistence effect: keep both keys when the token is to be kept and not empty, drop both otherwise. */
    method PersistToken()
      modifies this`storage
      ensures storage == Persisted(old(storage), token, storeToken)
    {
      if storeToken && token != "" {
        storage := storage[TokenKey := token][FlagKey := "true"];
      } else {
        storage := storage - {TokenKey, FlagKey};
      }
    }

    /** `setToken`, followed by the persistence effect it triggers. */
    method SetToken(t: string)
      modifies this`token, this`storage
      ensures token == t
      ensures storage == Persisted(old(storage), t, storeToken)
    {
      token := t;
      PersistToken();
    }

    /** `setStoreToken`, followed by the persistence effect it triggers. */
    method SetStoreToken(b: bool)
      modifies this`storeToken, this`storage
      ensures storeToken == b
      ensures storage == Persisted(old(storage), token, b)
    {
      storeToken := b;
      PersistToken();
    }

    /**
     * `handleScanRepo`: with a token and a repository, clear the index,
     * read the listing, and index its files by basename (the later of two
     * equal basenames wins); report the count, or the failure.
     */
    method ScanRepo(reply: ListingReply)
      modifies this`repoFilePaths, this`notification
      ensures token == "" || repo == "" ==>
        repoFilePaths == old(repoFilePaths) && notification == Some(Notice(ScanRequired, ErrorNotice))
      ensures token != "" && repo != "" ==>
        var listing := ScanResult(reply);
        && repoFilePaths == (if listing.Success? then Index(listing.value) else map[])
        && notification == (if listing.Success? then Some(Notice(ScanDone(|repoFilePaths|), SuccessNotice))
                            else Some(Notice(listing.error, ErrorNotice)))
    {
      if token == "" || repo == "" {
        notification := Some(Notice(ScanRequired, ErrorNotice));
        return;
      }
      repoFilePaths := map[];
      var listing := ScanResult(reply);
      if listing.Failure? {
        notification := Some(Notice(listing.error, ErrorNotice));
        return;
      }
      var tree := listing.value;
      var fileMap := map[];
      var i := 0;
      while i < |tree|
        invariant i <= |tree|
        invariant fileMap == Index(tree[..i])
      {
        var item := tree[i];
        assert tree[..i + 1][..i] == tree[..i];
        if item.kind == "blob" {
          var parts := Split(item.path, '/');
          var fileName := parts[|parts| - 1];
          BasenameIsLastSegment(item.path);
          if fileName != "" {
            fileMap := fileMap[fileName := item.path];
          }
        }
        i := i + 1;
      }
      assert tree[..i] == tree;
      repoFilePaths := fileMap;
      notification := Some(Notice(ScanDone(|fileMap|), SuccessNotice));
    }

    /**
     * `processFiles`: one idle entry per read file, appended in the order
     * the reads complete, with the path the index knows for its name.
     */
    method ProcessFiles(uploads: seq<Upload>)
      modifies this`files
      ensures |files| == |old(files)| + |uploads|
      ensures files[..|old(files)|] == old(files)
      ensures forall i :: 0 <= i < |uploads| ==>
        files[|old(files)| + i] == Staged(uploads[i].name, uploads[i].content, repoFilePaths)
    {
      var i := 0;
      while i < |uploads|
        invariant i <= |uploads|
        invariant |files| == |old(files)| + i
        invariant files[..|old(files)|] == old(files)
        invariant forall j :: 0 <= j < i ==>
          files[|old(files)| + j] == Staged(uploads[j].name, uploads[j].content, repoFilePaths)
      {
        var existingPath := if uploads[i].name in repoFilePaths then repoFilePaths[uploads[i].name] else "";
        files := files + [RepoFile(uploads[i].name, existingPath, uploads[i].content, Idle, None, None)];
        i := i + 1;
      }
    }

    /** `updateFilePath`: only the path of entry `index` changes; an index outside the list changes nothing. */
    method UpdateFilePath(index: int, newPath: string)
      modifies this`files
      ensures files == SetPath(old(files), index, newPath)
      ensures !(0 <= index < |old(files)|) ==> files == old(files)
    {
      files := SetPath(files, index, newPath);
    }

    /** `removeFile`: entry `index` goes, the rest keep their order; an index outside the list changes nothing. */
    method RemoveFile(index: int)
      modifies this`files
      ensures 0 <= index < |old(files)| ==> files == old(files)[..index] + old(files)[index + 1..]
      ensures !(0 <= index < |old(files)|) ==> files == old(files)
    {
      DropIndexIsRemoval(files, index, 0);
      files := DropIndex(files, index, 0);
    }

    /**
     * `commitFile`: a file without a path is marked `error` and nothing is
     * sent. Otherwise it is marked `committing`, its sha is looked up (a
     * 404 means a new file, committed without a sha), and the PUT decides
     * `committed` or `error`; a failure is reported.
     */
    method CommitFile(file: RepoFile, index: int, outcome: Outcome) returns (ok: bool)
      modifies this`files, this`notification, this`calls
      ensures ok == FileCommits(file, outcome)
      ensures files == SetStatus(old(files), index, if ok then Committed else Error)
      ensures calls == old(calls) + FileCalls(file, outcome, username, branch)
      ensures notification == if ok then old(notification) else Some(Notice(FailureNotice(file, outcome), ErrorNotice))
    {
      if file.path == "" {
        notification := Some(Notice("Path is required for " + file.name + ".", ErrorNotice));
        files := SetStatus(files, index, Error);
        return false;
      }
      SetStatusTwice(files, index, Committing, Committed);
      SetStatusTwice(files, index, Committing, Error);
      files := SetStatus(files, index, Committing);
      calls := calls + [GetSha(file.path)];
      var sha := GetFileSha(file.path, outcome.shaReply);
      if sha.Failure? {
        files := SetStatus(files, index, Error);
        notification := Some(Notice("Error on " + file.name + ": " + sha.error, ErrorNotice));
        return false;
      }
      calls := calls + [PutContent(file.path, Body(file, username, branch, sha.value))];
      var put := PutResult(outcome.putReply);
      if put.Failure? {
        files := SetStatus(files, index, Error);
        notification := Some(Notice("Error on " + file.name + ": " + put.error, ErrorNotice));
        return false;
      }
      files := SetStatus(files, index, Committed);
      return true;
    }

    /**
     * One step of the loop of `handleCommitAndPush` on an idle file:
     * commit it, which moves the loop's state one file further, and tell
     * whether the loop goes on.
     */
    method VisitIdle(list: seq<RepoFile>, outcomes: seq<Outcome>, ghost calls0: seq<HookCall>, i: nat)
      returns (success: bool)
      requires i < |list| && list[i].status == Idle && i <= FirstFailure(list, outcomes, 0)
      requires files == Visited(list, FirstFailure(list, outcomes, 0), i)
      requires calls == calls0 + PushCalls(list, outcomes, username, branch, i)
      modifies this`files, this`notification, this`calls
      ensures success <==> i < FirstFailure(list, outcomes, 0)
      ensures files == Visited(list, FirstFailure(list, outcomes, 0), i + 1)
      ensures calls == calls0 + PushCalls(list, outcomes, username, branch, i + 1)
      ensures success ==> notification == old(notification)
      ensures !success ==> Reach(list, outcomes) == i + 1
      ensures !success ==> notification == Some(Notice(FailureNotice(list[i], OutcomeAt(outcomes, i)), ErrorNotice))
    {
      ghost var stop := FirstFailure(list, outcomes, 0);
      VisitStep(list, stop, i);
      PushStep(list, outcomes, username, branch, i);
      ghost var done := PushCalls(list, outcomes, username, branch, i);
      success := CommitFile(list[i], i, OutcomeAt(outcomes, i));
      assert calls == calls0 + (done + FileCalls(list[i], OutcomeAt(outcomes, i), username, branch));
    }

    /**
     * The loop of `handleCommitAndPush`: visit the files in list order,
     * skip the ones that are not idle, commit the others one at a time and
     * stop at the first that fails. It reports whether all succeeded.
     */
    method RunPush(outcomes: seq<Outcome>) returns (allSucceeded: bool)
      modifies this`files, this`notification, this`calls
      ensures var stop := FirstFailure(old(files), outcomes, 0);
        && (allSucceeded <==> stop == |old(files)|)
        && files == Visited(old(files), stop, Reach(old(files), outcomes))
        && calls == old(calls) + PushCalls(old(files), outcomes, username, branch, Reach(old(files), outcomes))
        && notification == (if allSucceeded then old(notification)
                            else Some(Notice(FailureNotice(old(files)[stop], OutcomeAt(outcomes, stop)), ErrorNotice)))
    {
      var list := files;
      ghost var calls0 := calls;
      ghost var stop := FirstFailure(list, outcomes, 0);
      var i := 0;
      while i < |list|
        invariant i <= stop
        invariant files == Visited(list, stop, i)
        invariant calls == calls0 + PushCalls(list, outcomes, username, branch, i)
        invariant notification == old(notification)
      {
        if list[i].status == Idle {
          var success := VisitIdle(list, outcomes, calls0, i);
          if !success {
            return false;
          }
        } else {
          VisitStep(list, stop, i);
          PushStep(list, outcomes, username, branch, i);
        }
        i := i + 1;
      }
      return true;
    }

    /**
     * `handleCommitAndPush`: without a token, repository, branch or idle
     * file it only reports. Otherwise it runs the loop, and only when every
     * commit succeeded reports success and drops the committed entries.
     */
    method CommitAndPush(outcomes: seq<Outcome>)
      modifies this`files, this`notification, this`calls
      ensures token == "" || repo == "" || branch == "" || IdleCount(old(files)) == 0 ==>
        files == old(files) && calls == old(calls) && notification == Some(Notice(PushRequired, ErrorNotice))
      ensures !(token == "" || repo == "" || branch == "" || IdleCount(old(files)) == 0) ==>
        var stop := FirstFailure(old(files), outcomes, 0);
        && files == AfterPush(old(files), outcomes)
        && calls == old(calls) + PushCalls(old(files), outcomes, username, branch, Reach(old(files), outcomes))
        && notification == (if stop == |old(files)| then Some(Notice(PushDone, SuccessNotice))
                            else Some(Notice(FailureNotice(old(files)[stop], OutcomeAt(outcomes, stop)), ErrorNotice)))
    {
      if token == "" || repo == "" || branch == "" || IdleCount(files) == 0 {
        notification := Some(Notice(PushRequired, ErrorNotice));
        return;
      }
      var allSucceeded := RunPush(outcomes);
      if allSucceeded {
        notification := Some(Notice(PushDone, SuccessNotice));
        files := Prune(files);
      }
    }
  }
}
