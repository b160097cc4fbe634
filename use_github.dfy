/**
 * The pure logic of the `useGitHub` hook (src/hooks/useGitHub.ts): the
 * Conventional-Commit type of a path, the per-file message, the basename
 * index built from a recursive tree listing, how the two replies of a
 * per-file commit are read, and the functions that specify the staged list
 * and the publish loop, which the Session class in session.dfy carries out.
 */
module UseGitHub {
  import opened Wrappers
  import opened Strings
  import opened Types

  // ---------------------------------------------------------------------
  // getCommitType
  // ---------------------------------------------------------------------

  /** `getCommitType`: the first rule that matches decides; `refactor` when none does. */
  function GetCommitType(path: string): (t: string)
    ensures t in ["feat", "fix", "docs", "chore", "refactor"]
  {
    if path == "" then "feat"
    else if Contains(path, "src/commands") then "feat"
    else if Contains(path, "src/models") then "fix"
    else if EndsWithIgnoringCase(path, ".md") || EndsWithIgnoringCase(path, "LICENSE") then "docs"
    else if EndsWithIgnoringCase(path, "package.json") || EndsWithIgnoringCase(path, "config.js") then "chore"
    else "refactor"
  }

  /** One classification rule: a test on the path. */
  datatype Rule =
    | EmptyPath
    | PathContains(text: string)
    | PathEndsWithIgnoringCase(suffixes: seq<string>)

  predicate Matches(rule: Rule, path: string)
  {
    match rule
    case EmptyPath => path == ""
    case PathContains(t) => Contains(path, t)
    case PathEndsWithIgnoringCase(sufs) => exists i :: 0 <= i < |sufs| && EndsWithIgnoringCase(path, sufs[i])
  }

  /** The classification as a table, most specific rule first. */
  const CommitTypeRules: seq<(Rule, string)> := [
    (EmptyPath, "feat"),
    (PathContains("src/commands"), "feat"),
    (PathContains("src/models"), "fix"),
    (PathEndsWithIgnoringCase([".md", "LICENSE"]), "docs"),
    (PathEndsWithIgnoringCase(["package.json", "config.js"]), "chore")
  ]

  /** The type of the first rule in `rules` that matches `path`, or `default`. */
  function FirstMatch(rules: seq<(Rule, string)>, path: string, default: string): (t: string)
    ensures (exists i :: 0 <= i < |rules| && Matches(rules[i].0, path) && t == rules[i].1)
      || t == default
    decreases |rules|
  {
    if rules == [] then default
    else if Matches(rules[0].0, path) then rules[0].1
    else
      var t := FirstMatch(rules[1..], path, default);
      assert forall i :: 0 <= i < |rules| - 1 ==> rules[1..][i] == rules[i + 1];
      t
  }

  /** FirstMatch picks rule `k` exactly when rule `k` matches and no earlier one does. */
  lemma {:induction false} FirstMatchIsFirst(rules: seq<(Rule, string)>, path: string, default: string, k: nat)
    requires k < |rules| && Matches(rules[k].0, path)
    requires forall j :: 0 <= j < k ==> !Matches(rules[j].0, path)
    ensures FirstMatch(rules, path, default) == rules[k].1
    decreases k
  {
    if k > 0 {
      assert !Matches(rules[0].0, path);
      FirstMatchIsFirst(rules[1..], path, default, k - 1);
    }
  }

  /** When no rule matches, FirstMatch gives the default. */
  lemma {:induction false} FirstMatchOfNone(rules: seq<(Rule, string)>, path: string, default: string)
    requires forall j :: 0 <= j < |rules| ==> !Matches(rules[j].0, path)
    ensures FirstMatch(rules, path, default) == default
    decreases |rules|
  {
    if rules != [] {
      assert !Matches(rules[0].0, path);
      FirstMatchOfNone(rules[1..], path, default);
    }
  }

  /** The documentation rule is the two suffix tests of `getCommitType`. */
  lemma DocsRuleMatches(path: string)
    ensures Matches(CommitTypeRules[3].0, path)
      <==> EndsWithIgnoringCase(path, ".md") || EndsWithIgnoringCase(path, "LICENSE")
  {
    var sufs := CommitTypeRules[3].0.suffixes;
    assert sufs == [".md", "LICENSE"];
    assert sufs[0] == ".md" && sufs[1] == "LICENSE";
  }

  /** The chore rule is the two suffix tests of `getCommitType`. */
  lemma ChoreRuleMatches(path: string)
    ensures Matches(CommitTypeRules[4].0, path)
      <==> EndsWithIgnoringCase(path, "package.json") || EndsWithIgnoringCase(path, "config.js")
  {
    var sufs := CommitTypeRules[4].0.suffixes;
    assert sufs == ["package.json", "config.js"];
    assert sufs[0] == "package.json" && sufs[1] == "config.js";
  }

  /** `getCommitType` is the first match in the rule table, with `refactor` as the fallback. */
  lemma GetCommitTypeIsFirstMatch(path: string)
    ensures GetCommitType(path) == FirstMatch(CommitTypeRules, path, "refactor")
  {
    var rules := CommitTypeRules;
    DocsRuleMatches(path);
    ChoreRuleMatches(path);
    var k := if Matches(rules[0].0, path) then 0
      else if Matches(rules[1].0, path) then 1
      else if Matches(rules[2].0, path) then 2
      else if Matches(rules[3].0, path) then 3
      else if Matches(rules[4].0, path) then 4
      else 5;
    if k < 5 {
      FirstMatchIsFirst(rules, path, "refactor", k);
    } else {
      FirstMatchOfNone(rules, path, "refactor");
    }
  }

  /** Anything under `src/commands` is a feature, whatever its name: that rule comes before the suffix rules. */
  lemma CommandsAreFeatures(path: string, i: nat)
    requires OccursAt(path, "src/commands", i)
    ensures GetCommitType(path) == "feat"
  {
  }

  /** A README under `src/commands` is a feature, not documentation: the `src/commands` rule comes before the suffix rules. */
  lemma CommandsReadmeIsFeature()
    ensures GetCommitType("src/commands/README.md") == "feat"
  {
    CommandsAreFeatures("src/commands/README.md", 0);
  }

  /** The suffix rules ignore case: `README.MD` is documentation. */
  lemma UpperCaseMarkdownIsDocs()
    ensures GetCommitType("README.MD") == "docs"
  {
    assert EndsWithIgnoringCase("README.MD", ".md") by {
      assert Lower("README.MD"[6..]) == ".md";
      assert Lower(".md") == ".md";
    }
  }

  // ---------------------------------------------------------------------
  // autoMessage
  // ---------------------------------------------------------------------

  /** The second-to-last `/` segment of the path, or `general` for a path without `/`. */
  function AutoScope(path: string): (scope: string)
    ensures '/' !in scope
    ensures '/' !in path ==> scope == "general"
  {
    assert '/' !in path ==> Split(path, '/') == [path] by {
      if '/' !in path {
        SplitWithoutSeparator(path, '/');
      }
    }
    var parts := Split(path, '/');
    if |parts| > 1 then parts[|parts| - 2] else "general"
  }

  /** The scope is the name of the directory holding the file; a file at the root gets `general`. */
  lemma AutoScopeIsParentDirectory(path: string)
    ensures LastIndexOf(path, '/') < 0 ==> AutoScope(path) == "general"
    ensures LastIndexOf(path, '/') >= 0 ==>
      AutoScope(path) == AfterLast(path[..LastIndexOf(path, '/')], '/')
  {
    SplitAtLast(path, '/');
    var k := LastIndexOf(path, '/');
    if k >= 0 {
      var dir := Split(path[..k], '/');
      assert Split(path, '/') == dir + [path[k + 1..]];
      assert Split(path, '/')[|Split(path, '/')| - 2] == dir[|dir| - 1];
      LastPieceIsAfterLast(path[..k], '/');
    }
  }

  /** `file.status === 'idle' ? 'update' : 'create'`. */
  function Action(status: Status): (a: string)
    ensures a == "update" <==> status == Idle
    ensures a == "create" <==> status != Idle
  {
    if status == Idle then "update" else "create"
  }

  function Author(username: string): (a: string)
    ensures a != ""
    ensures username != "" ==> a == username
    ensures username == "" ==> a == "user"
  {
    if username != "" then username else "user"
  }

  /** `autoMessage`: `<type>(<scope>): <action> <name> - <username or "user">`. */
  function AutoMessage(file: RepoFile, username: string): (m: string)
    ensures var t := GetCommitType(file.path); |t| < |m| && m[..|t| + 1] == t + "("
    ensures var tail := " - " + Author(username); |tail| < |m| && m[|m| - |tail|..] == tail
  {
    GetCommitType(file.path) + "(" + AutoScope(file.path) + "): " + Action(file.status) + " " + file.name
    + " - " + Author(username)
  }

  /** A file at the root of the repository gets the `general` scope. */
  lemma RootFileHasGeneralScope(file: RepoFile, username: string)
    requires '/' !in file.path
    ensures AutoMessage(file, username)
      == GetCommitType(file.path) + "(general): " + Action(file.status) + " " + file.name + " - " + Author(username)
  {
    SplitWithoutSeparator(file.path, '/');
  }

  // ---------------------------------------------------------------------
  // The basename index of handleScanRepo
  // ---------------------------------------------------------------------

  /** An entry of the recursive tree listing: its path and its `type` (`blob` for a file). */
  datatype TreeItem = TreeItem(path: string, kind: string)

  /** `item.path.split('/').pop()`: the text after the last `/`. */
  function Basename(path: string): (b: string)
    ensures '/' !in b
  {
    AfterLast(path, '/')
  }

  /** `split('/').pop()` is the text after the last `/`. */
  lemma BasenameIsLastSegment(path: string)
    ensures var parts := Split(path, '/'); parts[|parts| - 1] == Basename(path)
  {
    LastPieceIsAfterLast(path, '/');
  }

  /** The basename of `dir/name` is `name` when `name` has no `/`. */
  lemma BasenameOfJoin(dir: string, name: string)
    requires '/' !in name
    ensures Basename(dir + "/" + name) == name
  {
    var s := dir + "/" + name;
    assert s[|dir|] == '/';
    assert forall j :: |dir| < j < |s| ==> s[j] == name[j - |dir| - 1];
    assert LastIndexOf(s, '/') == |dir|;
    assert s[|dir| + 1..] == name;
  }

  /** The items that enter the index: files with a non-empty basename. */
  predicate Indexed(item: TreeItem)
    ensures Indexed(item) <==> item.kind == "blob" && item.path != "" && item.path[|item.path| - 1] != '/'
  {
    item.kind == "blob" && Basename(item.path) != ""
  }

  /** The map the scan loop builds: later items overwrite earlier ones with the same basename. */
  function Index(items: seq<TreeItem>): (m: map<string, string>)
    ensures forall name :: name in m ==> name != "" && '/' !in name
    decreases |items|
  {
    if items == [] then map[]
    else
      var m := Index(items[..|items| - 1]);
      var item := items[|items| - 1];
      if Indexed(item) then m[Basename(item.path) := item.path] else m
  }

  /** A name is indexed exactly when some listed file has it as basename. */
  lemma {:induction false} IndexKeys(items: seq<TreeItem>, name: string)
    ensures name in Index(items) <==>
      exists i :: 0 <= i < |items| && Indexed(items[i]) && Basename(items[i].path) == name
    decreases |items|
  {
    if items != [] {
      var init := items[..|items| - 1];
      IndexKeys(init, name);
      assert forall i :: 0 <= i < |init| ==> init[i] == items[i];
    }
  }

  /** On a collision the last listed file wins: the index maps a name to the path of the last file with that basename. */
  lemma {:induction false} IndexLastWins(items: seq<TreeItem>, name: string, i: nat)
    requires i < |items| && Indexed(items[i]) && Basename(items[i].path) == name
    requires forall j :: i < j < |items| ==> !(Indexed(items[j]) && Basename(items[j].path) == name)
    ensures name in Index(items) && Index(items)[name] == items[i].path
    decreases |items|
  {
    var init := items[..|items| - 1];
    if i < |items| - 1 {
      assert forall j :: i < j < |init| ==> init[j] == items[j];
      IndexLastWins(init, name, i);
    }
  }

  /** The number of files in a listing. */
  function BlobCount(items: seq<TreeItem>): (n: nat)
    ensures n <= |items|
    decreases |items|
  {
    if items == [] then 0
    else BlobCount(items[..|items| - 1]) + (if items[|items| - 1].kind == "blob" then 1 else 0)
  }

  /** The index never has more entries than the listing has files. */
  lemma {:induction false} IndexSize(items: seq<TreeItem>)
    ensures |Index(items)| <= BlobCount(items)
    decreases |items|
  {
    if items != [] {
      var init := items[..|items| - 1];
      IndexSize(init);
      var item := items[|items| - 1];
      if Indexed(item) {
        var m := Index(init);
        if Basename(item.path) in m {
          assert m[Basename(item.path) := item.path].Keys == m.Keys;
        } else {
          assert m[Basename(item.path) := item.path].Keys == m.Keys + {Basename(item.path)};
        }
      }
    }
  }

  /** Two files called `a.js` in different directories: the index keeps the second. */
  lemma IndexCollisionExample()
    ensures Index([TreeItem("x/a.js", "blob"), TreeItem("y/a.js", "blob")]) == map["a.js" := "y/a.js"]
  {
    BasenameOfJoin("x", "a.js");
    BasenameOfJoin("y", "a.js");
    assert "x" + "/" + "a.js" == "x/a.js" && "y" + "/" + "a.js" == "y/a.js";
    var items := [TreeItem("x/a.js", "blob"), TreeItem("y/a.js", "blob")];
    assert items[..1] == [TreeItem("x/a.js", "blob")];
    assert items[..1][..0] == [];
  }

  /** The reply to the recursive tree listing: its status and its items, or the message of a request that got no reply. */
  datatype ListingReply = Listing(status: int, tree: seq<TreeItem>) | ListingUnreachable(message: string)

  const ScanFailed := "Failed to scan repository. Check repo name and branch."

  /** The listing the scan indexes, or the message it reports. */
  function ScanResult(reply: ListingReply): (r: Result<seq<TreeItem>, string>)
    ensures r.Success? <==> reply.Listing? && IsOk(reply.status)
    ensures r.Success? ==> r.value == reply.tree
    ensures reply.ListingUnreachable? ==> r == Failure(reply.message)
    ensures reply.Listing? && !IsOk(reply.status) ==> r == Failure(ScanFailed)
  {
    match reply
    case ListingUnreachable(m) => Failure(m)
    case Listing(status, tree) => if IsOk(status) then Success(tree) else Failure(ScanFailed)
  }

  /** The notice after a successful scan, with the number of indexed names. */
  /** The notice after a scan; the number in it reads back as the size of the index. */
  function ScanDone(count: nat): (m: string)
    ensures var lo, hi := |"Scan complete! Found "|, |m| - |" files."|;
      lo <= hi && IsDigits(m[lo..hi]) && DecimalValue(m[lo..hi]) == count
  {
    var n := NatToString(count);
    var m := "Scan complete! Found " + n + " files.";
    assert m[|"Scan complete! Found "|..|m| - |" files."|] == n;
    NatToStringValue(count);
    m
  }

  // ---------------------------------------------------------------------
  // The two requests of commitFile
  // ---------------------------------------------------------------------

  /**
   * A reply as the hook reads it: the HTTP status and the one JSON field it
   * looks at (`sha` of a content lookup, `message` of a refused commit), or
   * the message of a request that never got a reply.
   */
  datatype HookReply = Answered(status: int, field: Option<string>) | Unreachable(message: string)

  predicate IsOk(status: int)
  {
    200 <= status <= 299
  }

  /** `getFileSha`: the sha of an existing file, none for a new one (404), an error otherwise. */
  function GetFileSha(path: string, reply: HookReply): (r: Result<Option<string>, string>)
    ensures reply.Answered? && reply.status == 404 ==> r == Success(None)
    ensures reply.Answered? && IsOk(reply.status) ==> r == Success(reply.field)
    ensures reply.Answered? && reply.status != 404 && !IsOk(reply.status) ==>
      r == Failure("Failed to get file SHA for " + path)
    ensures reply.Unreachable? ==> r == Failure(reply.message)
  {
    match reply
    case Unreachable(m) => Failure(m)
    case Answered(status, sha) =>
      if status == 404 then Success(None)
      else if !IsOk(status) then Failure("Failed to get file SHA for " + path)
      else Success(sha)
  }

  /** The body of the PUT request that commits one file. */
  datatype PutBody = PutBody(message: string, content: Encoded, branch: string, sha: Option<string>)

  /** `...(sha && { sha })`: the sha goes into the body only when it is a non-empty string. */
  function ShaField(sha: Option<string>): (f: Option<string>)
    ensures f.Some? <==> sha.Some? && sha.value != ""
    ensures f.Some? ==> f == sha
  {
    if sha.Some? && sha.value != "" then sha else None
  }

  /** The body of the PUT: the auto message, the encoded content, the branch, and the sha only when there is one. */
  function Body(file: RepoFile, username: string, branch: string, sha: Option<string>): (b: PutBody)
    ensures b.message == AutoMessage(file, username) && b.content == Base64(file.content) && b.branch == branch
    ensures b.sha.Some? <==> sha.Some? && sha.value != ""
    ensures b.sha.Some? ==> b.sha == sha
  {
    PutBody(AutoMessage(file, username), Base64(file.content), branch, ShaField(sha))
  }

  /** A new file (404 on lookup) is committed without a sha; an existing one with its sha. */
  lemma NewFileHasNoSha(file: RepoFile, username: string, branch: string, reply: HookReply)
    requires GetFileSha(file.path, reply).Success?
    ensures reply.Answered? && reply.status == 404 ==>
      Body(file, username, branch, GetFileSha(file.path, reply).value).sha.None?
    ensures reply.Answered? && IsOk(reply.status) && reply.field.Some? && reply.field.value != "" ==>
      Body(file, username, branch, GetFileSha(file.path, reply).value).sha == reply.field
  {
  }

  const CommitFailed := "Commit failed."

  /** The PUT reply: success on 2xx, else the remote's message, or `Commit failed.` without one. */
  function PutResult(reply: HookReply): (r: Result<(), string>)
    ensures r.Success? <==> reply.Answered? && IsOk(reply.status)
    ensures reply.Unreachable? ==> r == Failure(reply.message)
    ensures reply.Answered? && !IsOk(reply.status) ==>
      r.error == (if reply.field.Some? && reply.field.value != "" then reply.field.value else CommitFailed)
  {
    match reply
    case Unreachable(m) => Failure(m)
    case Answered(status, message) =>
      if IsOk(status) then Success(())
      else if message.Some? && message.value != "" then Failure(message.value)
      else Failure(CommitFailed)
  }

  /** A request the hook sends for one file: the sha lookup, then the commit itself. */
  datatype HookCall = GetSha(path: string) | PutContent(path: string, body: PutBody)

  /** What the remote answers to the two requests of one file. */
  datatype Outcome = Outcome(shaReply: HookReply, putReply: HookReply)

  /** The outcome for the file at `index`; past the end of the script, a new file that commits. */
  function OutcomeAt(outcomes: seq<Outcome>, index: nat): Outcome
  {
    if index < |outcomes| then outcomes[index] else Outcome(Answered(404, None), Answered(201, None))
  }

  /** Whether `commitFile` succeeds: a path is set, the lookup works and the commit is accepted. */
  predicate FileCommits(file: RepoFile, outcome: Outcome)
    ensures FileCommits(file, outcome) <==>
      && file.path != ""
      && outcome.shaReply.Answered? && (outcome.shaReply.status == 404 || IsOk(outcome.shaReply.status))
      && outcome.putReply.Answered? && IsOk(outcome.putReply.status)
  {
    && file.path != ""
    && GetFileSha(file.path, outcome.shaReply).Success?
    && PutResult(outcome.putReply).Success?
  }

  /** The requests `commitFile` sends: none without a path, the lookup, and the commit only after a lookup that worked. */
  function FileCalls(file: RepoFile, outcome: Outcome, username: string, branch: string): (calls: seq<HookCall>)
    ensures file.path == "" <==> calls == []
    ensures |calls| <= 2
    ensures FileCommits(file, outcome) ==> |calls| == 2 && calls[1].PutContent?
    ensures file.path != "" ==> calls[0] == GetSha(file.path)
    ensures file.path != "" && GetFileSha(file.path, outcome.shaReply).Failure? ==> |calls| == 1
  {
    if file.path == "" then []
    else
      var sha := GetFileSha(file.path, outcome.shaReply);
      [GetSha(file.path)]
      + if sha.Success? then [PutContent(file.path, Body(file, username, branch, sha.value))] else []
  }

  /** The notice `commitFile` shows when it fails. */
  function FailureNotice(file: RepoFile, outcome: Outcome): (n: string)
    ensures file.path == "" ==> n == "Path is required for " + file.name + "."
    ensures var head := "Error on " + file.name + ": ";
      file.path != "" && !FileCommits(file, outcome) ==>
        && |head| <= |n| && n[..|head|] == head
        && var reason := n[|head|..];
           reason == (if GetFileSha(file.path, outcome.shaReply).Failure? then GetFileSha(file.path, outcome.shaReply).error
                      else PutResult(outcome.putReply).error)
  {
    if file.path == "" then "Path is required for " + file.name + "."
    else
      var sha := GetFileSha(file.path, outcome.shaReply);
      var put := PutResult(outcome.putReply);
      "Error on " + file.name + ": " + (if sha.Failure? then sha.error else if put.Failure? then put.error else "")
  }

  /** The kind of a notification: `success` or `error`. */
  datatype NoticeKind = SuccessNotice | ErrorNotice

  datatype Notice = Notice(message: string, kind: NoticeKind)

  const ScanRequired := "Token and Repository must be filled to scan."
  const PushRequired := "Token, Repo, Branch, and at least one new file are required."
  const PushDone := "All files committed and pushed successfully!"

  // ---------------------------------------------------------------------
  // The staged list
  // ---------------------------------------------------------------------

  /** `prev.map((f, i) => i === index ? { ...f, status } : f)`. */
  function SetStatus(files: seq<RepoFile>, index: int, status: Status): (r: seq<RepoFile>)
    ensures |r| == |files|
    ensures forall i :: 0 <= i < |files| ==>
      r[i] == if i == index then files[i].(status := status) else files[i]
  {
    seq(|files|, i requires 0 <= i < |files| => if i == index then files[i].(status := status) else files[i])
  }

  /** A second status update of the same entry replaces the first. */
  lemma SetStatusTwice(files: seq<RepoFile>, index: int, first: Status, second: Status)
    ensures SetStatus(SetStatus(files, index, first), index, second) == SetStatus(files, index, second)
  {
  }

  /** `prev.map((file, i) => i === index ? { ...file, path: newPath } : file)`. */
  function SetPath(files: seq<RepoFile>, index: int, path: string): (r: seq<RepoFile>)
    ensures |r| == |files|
    ensures forall i :: 0 <= i < |files| ==>
      r[i] == if i == index then files[i].(path := path) else files[i]
  {
    seq(|files|, i requires 0 <= i < |files| => if i == index then files[i].(path := path) else files[i])
  }

  /** `files.filter((_, index) => index !== indexToRemove)`, with positions counted from `from`. */
  function DropIndex(files: seq<RepoFile>, index: int, from: int): (r: seq<RepoFile>)
    ensures |r| <= |files|
    decreases |files|
  {
    if files == [] then []
    else (if from == index then [] else [files[0]]) + DropIndex(files[1..], index, from + 1)
  }

  /** Removing by index takes out exactly that entry and keeps the rest in order; any other index changes nothing. */
  lemma {:induction false} DropIndexIsRemoval(files: seq<RepoFile>, index: int, from: int)
    ensures from <= index < from + |files| ==>
      DropIndex(files, index, from) == files[..index - from] + files[index - from + 1..]
    ensures !(from <= index < from + |files|) ==> DropIndex(files, index, from) == files
    decreases |files|
  {
    if files != [] {
      DropIndexIsRemoval(files[1..], index, from + 1);
      if from < index < from + |files| {
        assert files[..index - from] == [files[0]] + files[1..][..index - from - 1];
        assert files[index - from + 1..] == files[1..][index - from..];
      }
    }
  }

  /** `files.filter(f => f.status !== 'committed')`. */
  function Prune(files: seq<RepoFile>): (r: seq<RepoFile>)
    ensures |r| <= |files|
    ensures forall i :: 0 <= i < |r| ==> r[i].status != Committed
    decreases |files|
  {
    if files == [] then []
    else (if files[0].status == Committed then [] else [files[0]]) + Prune(files[1..])
  }

  /** Pruning keeps exactly the entries that are not committed, and adds none. */
  lemma {:induction false} PruneKeepsTheRest(files: seq<RepoFile>)
    ensures forall f :: f in Prune(files) ==> f in files
    ensures forall f :: f in files && f.status != Committed ==> f in Prune(files)
    decreases |files|
  {
    if files != [] {
      PruneKeepsTheRest(files[1..]);
      assert files == [files[0]] + files[1..];
    }
  }

  /** The number of committed entries. */
  function CommittedCount(files: seq<RepoFile>): (n: nat)
    ensures n <= |files|
    decreases |files|
  {
    if files == [] then 0
    else (if files[0].status == Committed then 1 else 0) + CommittedCount(files[1..])
  }

  /** Pruning works entry by entry: it keeps order and multiplicity, so pruning a concatenation prunes each part. */
  lemma {:induction false} PruneConcat(a: seq<RepoFile>, b: seq<RepoFile>)
    ensures Prune(a + b) == Prune(a) + Prune(b)
    decreases |a|
  {
    if a == [] {
      assert a + b == b;
    } else {
      assert (a + b)[0] == a[0] && (a + b)[1..] == a[1..] + b;
      PruneConcat(a[1..], b);
    }
  }

  /** Pruning drops exactly the committed entries: nothing else is lost. */
  lemma {:induction false} PruneLength(files: seq<RepoFile>)
    ensures |Prune(files)| == |files| - CommittedCount(files)
    ensures CommittedCount(files) == 0 ==> Prune(files) == files
    decreases |files|
  {
    if files != [] {
      PruneLength(files[1..]);
    }
  }

  /** The entry `processFiles` appends for an uploaded file: idle, with the indexed path or an empty one. */
  function Staged(name: string, content: string, paths: map<string, string>): (f: RepoFile)
    ensures f.status == Idle && f.name == name && f.content == content
    ensures f.path == (if name in paths then paths[name] else "")
  {
    RepoFile(name, if name in paths then paths[name] else "", content, Idle, None, None)
  }

  // ---------------------------------------------------------------------
  // The publish loop of handleCommitAndPush
  // ---------------------------------------------------------------------

  /** The first idle file at or after `from` whose commit fails, or `|files|` when there is none. */
  function FirstFailure(files: seq<RepoFile>, outcomes: seq<Outcome>, from: nat): (stop: nat)
    requires from <= |files|
    ensures from <= stop <= |files|
    ensures forall j :: from <= j < stop ==>
      files[j].status != Idle || FileCommits(files[j], OutcomeAt(outcomes, j))
    ensures stop < |files| ==> files[stop].status == Idle && !FileCommits(files[stop], OutcomeAt(outcomes, stop))
    decreases |files| - from
  {
    if from == |files| then from
    else if files[from].status == Idle && !FileCommits(files[from], OutcomeAt(outcomes, from)) then from
    else FirstFailure(files, outcomes, from + 1)
  }

  /**
   * The list after the loop has visited the files before `upto`: each
   * visited idle file is committed, except the one at `stop`, which is in
   * error; every other entry is as it was.
   */
  function Visited(files: seq<RepoFile>, stop: nat, upto: nat): (r: seq<RepoFile>)
    ensures |r| == |files|
  {
    seq(|files|, j requires 0 <= j < |files| =>
      if j < upto && files[j].status == Idle then files[j].(status := if j == stop then Error else Committed)
      else files[j])
  }

  /** One more step of the loop: a non-idle entry is skipped, an idle one takes its final status. */
  lemma VisitStep(files: seq<RepoFile>, stop: nat, i: nat)
    requires i < |files|
    ensures files[i].status != Idle ==> Visited(files, stop, i + 1) == Visited(files, stop, i)
    ensures files[i].status == Idle ==>
      Visited(files, stop, i + 1) == SetStatus(Visited(files, stop, i), i, if i == stop then Error else Committed)
  {
  }

  /** One more step of the loop over the requests: an idle file adds its own, and the stop is where a commit fails. */
  lemma PushStep(files: seq<RepoFile>, outcomes: seq<Outcome>, username: string, branch: string, i: nat)
    requires i < |files| && i <= FirstFailure(files, outcomes, 0)
    ensures PushCalls(files, outcomes, username, branch, i + 1)
      == PushCalls(files, outcomes, username, branch, i)
         + if files[i].status == Idle then FileCalls(files[i], OutcomeAt(outcomes, i), username, branch) else []
    ensures files[i].status == Idle ==>
      (i == FirstFailure(files, outcomes, 0) <==> !FileCommits(files[i], OutcomeAt(outcomes, i)))
    ensures i == FirstFailure(files, outcomes, 0) ==> Reach(files, outcomes) == i + 1
  {
  }

  /** `files.filter(f => f.status === 'idle').length`. */
  function IdleCount(files: seq<RepoFile>): (n: nat)
    ensures n <= |files|
    ensures n == 0 <==> forall i :: 0 <= i < |files| ==> files[i].status != Idle
    decreases |files|
  {
    if files == [] then 0
    else (if files[|files| - 1].status == Idle then 1 else 0) + IdleCount(files[..|files| - 1])
  }

  /** The requests of the visited idle files before `upto`, in list order. */
  function PushCalls(files: seq<RepoFile>, outcomes: seq<Outcome>, username: string, branch: string, upto: nat): (calls: seq<HookCall>)
    requires upto <= |files|
    ensures |calls| <= 2 * upto
    decreases upto
  {
    if upto == 0 then []
    else
      PushCalls(files, outcomes, username, branch, upto - 1)
      + if files[upto - 1].status == Idle then FileCalls(files[upto - 1], OutcomeAt(outcomes, upto - 1), username, branch) else []
  }

  /** How far the loop gets: up to and including the first failure, or through the whole list. */
  function Reach(files: seq<RepoFile>, outcomes: seq<Outcome>): (n: nat)
    ensures n <= |files|
  {
    var stop := FirstFailure(files, outcomes, 0);
    if stop < |files| then stop + 1 else stop
  }

  /** The list after a push: as visited, and pruned of committed entries when every commit succeeded. */
  function AfterPush(files: seq<RepoFile>, outcomes: seq<Outcome>): (r: seq<RepoFile>)
    ensures |r| <= |files|
    ensures FirstFailure(files, outcomes, 0) < |files| ==> |r| == |files|
  {
    var stop := FirstFailure(files, outcomes, 0);
    var visited := Visited(files, stop, Reach(files, outcomes));
    if stop == |files| then Prune(visited) else visited
  }

  /** Stop on the first failure: the files after it are untouched, in particular idle files stay idle. */
  lemma PushLeavesLaterFilesAlone(files: seq<RepoFile>, outcomes: seq<Outcome>, j: nat)
    requires FirstFailure(files, outcomes, 0) < j < |files|
    ensures AfterPush(files, outcomes)[j] == files[j]
    ensures |AfterPush(files, outcomes)| == |files|
  {
  }

  /** The failing file is the only one in error that was not before, and every earlier idle file is committed. */
  lemma PushMarksFailureAndCommitsBefore(files: seq<RepoFile>, outcomes: seq<Outcome>, j: nat)
    requires FirstFailure(files, outcomes, 0) < |files| && j < |files| && files[j].status == Idle
    ensures var stop := FirstFailure(files, outcomes, 0);
      && (j < stop ==> AfterPush(files, outcomes)[j].status == Committed && FileCommits(files[j], OutcomeAt(outcomes, j)))
      && (j == stop ==> AfterPush(files, outcomes)[j].status == Error && !FileCommits(files[j], OutcomeAt(outcomes, j)))
  {
  }

  /** After a push where every commit succeeded, no committed entry remains and no idle file is left. */
  lemma FullPushClearsEverything(files: seq<RepoFile>, outcomes: seq<Outcome>)
    requires FirstFailure(files, outcomes, 0) == |files|
    ensures forall i :: 0 <= i < |AfterPush(files, outcomes)| ==>
      AfterPush(files, outcomes)[i].status !in {Idle, Committed}
    ensures forall f :: f in files && f.status !in {Idle, Committed} ==> f in AfterPush(files, outcomes)
  {
    var visited := Visited(files, |files|, |files|);
    assert AfterPush(files, outcomes) == Prune(visited);
    PruneKeepsTheRest(visited);
    forall f | f in files && f.status !in {Idle, Committed} ensures f in visited {
      var i :| 0 <= i < |files| && files[i] == f;
      assert visited[i] == f;
    }
    forall i | 0 <= i < |Prune(visited)| ensures Prune(visited)[i].status != Idle {
      assert Prune(visited)[i] in visited;
    }
  }

  /** Every request of a push comes from an idle file at or before the stop, and only a file with a path sends any. */
  lemma {:induction false} PushCallsComeFromVisitedFiles(files: seq<RepoFile>, outcomes: seq<Outcome>,
    username: string, branch: string, upto: nat, c: HookCall)
    requires upto <= |files|
    requires c in PushCalls(files, outcomes, username, branch, upto)
    ensures exists j :: 0 <= j < upto && files[j].status == Idle && files[j].path != "" && c.path == files[j].path
    decreases upto
  {
    var prev := PushCalls(files, outcomes, username, branch, upto - 1);
    var f := files[upto - 1];
    if c in prev {
      PushCallsComeFromVisitedFiles(files, outcomes, username, branch, upto - 1, c);
    } else {
      assert f.status == Idle;
      assert c in FileCalls(f, OutcomeAt(outcomes, upto - 1), username, branch);
      assert f.path != "";
    }
  }

  /** The loop only commits idle files, so every message it sends announces an update, never a creation. */
  lemma {:induction false} PushMessagesSayUpdate(files: seq<RepoFile>, outcomes: seq<Outcome>,
    username: string, branch: string, upto: nat, c: HookCall)
    requires upto <= |files|
    requires c in PushCalls(files, outcomes, username, branch, upto) && c.PutContent?
    ensures exists j :: 0 <= j < upto && files[j].status == Idle && c.body.message == AutoMessage(files[j], username)
    decreases upto
  {
    var prev := PushCalls(files, outcomes, username, branch, upto - 1);
    if c in prev {
      PushMessagesSayUpdate(files, outcomes, username, branch, upto - 1, c);
    } else {
      var f := files[upto - 1];
      assert f.status == Idle;
      assert c in FileCalls(f, OutcomeAt(outcomes, upto - 1), username, branch);
      assert c.body.message == AutoMessage(f, username);
    }
  }

  // ---------------------------------------------------------------------
  // Token persistence
  // ---------------------------------------------------------------------

  const TokenKey := "githubToken"
  const FlagKey := "shouldStoreToken"

  /** The storage after the persistence effect: both keys set when the token is to be kept and not empty, both removed otherwise. */
  function Persisted(storage: map<string, string>, token: string, storeToken: bool): (s: map<string, string>)
    ensures storeToken && token != "" ==> TokenKey in s && s[TokenKey] == token && FlagKey in s && s[FlagKey] == "true"
    ensures !(storeToken && token != "") ==> TokenKey !in s && FlagKey !in s
    ensures forall k :: k in storage && k != TokenKey && k != FlagKey ==> k in s && s[k] == storage[k]
    ensures forall k :: k in s && k != TokenKey && k != FlagKey ==> k in storage
  {
    if storeToken && token != "" then storage[TokenKey := token][FlagKey := "true"]
    else storage - {TokenKey, FlagKey}
  }

  /** The token hydration restores: the stored one, when it is not empty and the flag reads `true`. */
  function Restored(storage: map<string, string>): (t: Option<string>)
    ensures t.Some? ==> t.value != "" && TokenKey in storage && storage[TokenKey] == t.value
    ensures t.Some? <==> FlagKey in storage && storage[FlagKey] == "true" && TokenKey in storage && storage[TokenKey] != ""
  {
    if TokenKey in storage && storage[TokenKey] != "" && FlagKey in storage && storage[FlagKey] == "true"
    then Some(storage[TokenKey])
    else None
  }

  /** What the persistence effect writes, hydration reads back: the token exactly when it was to be kept. */
  lemma PersistThenRestore(storage: map<string, string>, token: string, storeToken: bool)
    ensures Restored(Persisted(storage, token, storeToken))
      == if storeToken && token != "" then Some(token) else None
  {
  }

  /** A session that mounted and persisted reloads to the same token: hydration is stable under the persistence effect. */
  lemma HydrationIsStable(storage: map<string, string>)
    ensures var t := Restored(storage);
      Restored(Persisted(storage, if t.Some? then t.value else "", t.Some?)) == t
  {
    var t := Restored(storage);
    PersistThenRestore(storage, if t.Some? then t.value else "", t.Some?);
  }

  /** Persisting depends only on the final token and flag, not on what the two keys held before. */
  lemma PersistOverwrites(storage: map<string, string>, t0: string, b0: bool, token: string, storeToken: bool)
    ensures Persisted(Persisted(storage, t0, b0), token, storeToken) == Persisted(storage, token, storeToken)
  {
    var a := Persisted(Persisted(storage, t0, b0), token, storeToken);
    var b := Persisted(storage, token, storeToken);
    assert a.Keys == b.Keys;
  }
}
