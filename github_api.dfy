/**
 * The current API service (src/services/githubApi.ts): the batch
 * commit-message policy and the single-commit tree protocol, which lands a
 * whole batch of files as one revision: read the branch tip, read its tree,
 * create one blob per file, one tree on top of the old one, one commit whose
 * only parent is the old tip, and finally move the branch.
 */
module GithubApi {
  import opened Wrappers
  import opened Strings
  import opened Types
  import opened GitHubRest
  import opened GitRemote
  import opened CommitProtocol

  // ---------------------------------------------------------------------
  // getScope
  // ---------------------------------------------------------------------

  /** A path segment `getScope` accepts as a scope: non-empty and without a dot. */
  predicate IsScopeName(p: string)
  {
    p != "" && '.' !in p
  }

  /** The filter's test on a segment, `p && !p.includes('.')`, is exactly IsScopeName. */
  lemma ScopeNameTest(p: string)
    ensures IsScopeName(p) <==> p != "" && !Contains(p, ".")
  {
    forall i: nat | OccursAt(p, ".", i) ensures p[i] == '.' {
      assert p[i..i + 1][0] == p[i];
    }
    assert Contains(p, ".") <==> '.' in p by {
      if '.' in p {
        var i :| 0 <= i < |p| && p[i] == '.';
        assert OccursAt(p, ".", i);
      }
    }
  }

  /** `parts.filter(p => p && !p.includes('.'))`. */
  function ScopeNames(parts: seq<string>): (r: seq<string>)
    ensures |r| <= |parts|
    ensures forall i :: 0 <= i < |r| ==> IsScopeName(r[i])
    ensures forall p :: p in parts && IsScopeName(p) ==> p in r
    decreases |parts|
  {
    if parts == [] then []
    else
      var last := parts[|parts| - 1];
      ScopeNames(parts[..|parts| - 1]) + (if IsScopeName(last) then [last] else [])
  }

  /** The position of the last segment that qualifies as a scope, or -1. */
  function LastScopeIndex(parts: seq<string>): (k: int)
    ensures -1 <= k < |parts|
    ensures k >= 0 ==> IsScopeName(parts[k])
    ensures forall j :: k < j < |parts| ==> !IsScopeName(parts[j])
    decreases |parts|
  {
    if parts == [] then -1
    else if IsScopeName(parts[|parts| - 1]) then |parts| - 1
    else LastScopeIndex(parts[..|parts| - 1])
  }

  /** The filter keeps something exactly when some segment qualifies, and `pop()` then yields the last qualifying segment. */
  lemma {:induction false} ScopeNamesLast(parts: seq<string>)
    ensures |ScopeNames(parts)| > 0 <==> LastScopeIndex(parts) >= 0
    ensures |ScopeNames(parts)| > 0 ==> ScopeNames(parts)[|ScopeNames(parts)| - 1] == parts[LastScopeIndex(parts)]
    decreases |parts|
  {
    if parts != [] && !IsScopeName(parts[|parts| - 1]) {
      ScopeNamesLast(parts[..|parts| - 1]);
      assert ScopeNames(parts) == ScopeNames(parts[..|parts| - 1]);
    }
  }

  /**
   * `getScope`: the last path segment that is non-empty and has no dot;
   * failing that, the text before the first dot of the whole path.
   */
  function GetScope(path: string): (scope: string)
    ensures '.' !in scope
    ensures '/' !in path && IsScopeName(path) ==> scope == path
  {
    assert '/' !in path ==> Split(path, '/') == [path] by {
      if '/' !in path {
        SplitWithoutSeparator(path, '/');
      }
    }
    var names := ScopeNames(Split(path, '/'));
    if |names| > 0 then names[|names| - 1] else Split(path, '.')[0]
  }

  /** What `getScope` returns, stated without the filter: the deepest dot-free segment, else the path up to its first dot. */
  lemma GetScopeSpec(path: string)
    ensures var segs, scope := Split(path, '/'), GetScope(path);
      var k := LastScopeIndex(segs);
      && (k < 0 <==> forall i :: 0 <= i < |segs| ==> !IsScopeName(segs[i]))
      && (k >= 0 ==> scope == segs[k] && IsScopeName(scope) && forall j :: k < j < |segs| ==> !IsScopeName(segs[j]))
      && (k < 0 ==> '.' !in scope && |scope| <= |path| && path[..|scope|] == scope
                    && (|scope| == |path| || path[|scope|] == '.'))
  {
    var segs := Split(path, '/');
    ScopeNamesLast(segs);
    if LastScopeIndex(segs) < 0 {
      assert GetScope(path) == Split(path, '.')[0];
      SplitHead(path, '.');
    }
  }

  /** Helper for the examples: the segments of a two- or three-part path. */
  lemma SplitInThree(x: string, y: string, z: string)
    requires '/' !in x && '/' !in y && '/' !in z
    ensures Split(x + "/" + y, '/') == [x, y]
    ensures Split(x + "/" + y + "/" + z, '/') == [x, y, z]
  {
    SplitWithoutSeparator(y, '/');
    SplitAfterPiece(x, '/', y);
    SplitWithoutSeparator(z, '/');
    SplitAfterPiece(y, '/', z);
    assert x + "/" + y + "/" + z == x + ['/'] + (y + ['/'] + z);
    SplitAfterPiece(x, '/', y + "/" + z);
  }

  /** Which segments of the example paths qualify as scopes. */
  lemma ExampleSegments()
    ensures IsScopeName("commands") && IsScopeName("Makefile")
    ensures !IsScopeName("foo.js") && !IsScopeName("a.txt")
  {
    assert "foo.js"[3] == '.';
    assert "a.txt"[1] == '.';
  }

  /** A solver aid for GetScopeOfNestedFile: the example paths, segment by segment, so that the example needs no string search. */
  lemma ExamplePaths()
    ensures "src/commands/foo.js" == "src" + "/" + "commands" + "/" + "foo.js"
    ensures "src/Makefile" == "src" + "/" + "Makefile"
    ensures '/' !in "src" && '/' !in "commands" && '/' !in "foo.js" && '/' !in "Makefile"
  {
  }

  /** The segments of the nested example paths. */
  lemma NestedPathSegments()
    ensures Split("src/commands/foo.js", '/') == ["src", "commands", "foo.js"]
    ensures Split("src/Makefile", '/') == ["src", "Makefile"]
  {
    ExamplePaths();
    SplitInThree("src", "commands", "foo.js");
    SplitInThree("src", "Makefile", "");
  }

  /** A path whose last qualifying segment is `segs[k]` has that segment as scope. */
  lemma GetScopeOfSegments(path: string, segs: seq<string>, k: nat)
    requires Split(path, '/') == segs
    requires k < |segs| && IsScopeName(segs[k])
    requires forall j :: k < j < |segs| ==> !IsScopeName(segs[j])
    ensures GetScope(path) == segs[k]
  {
    GetScopeSpec(path);
    assert LastScopeIndex(segs) == k;
  }

  /** A file under a dot-free directory takes the directory as scope; a dot-free file name is its own scope. */
  lemma GetScopeOfNestedFile()
    ensures GetScope("src/commands/foo.js") == "commands"
    ensures GetScope("src/Makefile") == "Makefile"
  {
    NestedPathSegments();
    ExampleSegments();
    GetScopeOfSegments("src/commands/foo.js", ["src", "commands", "foo.js"], 1);
    GetScopeOfSegments("src/Makefile", ["src", "Makefile"], 1);
  }

  /** A top-level file with an extension falls back to its name up to the first dot; the empty path to itself. */
  lemma GetScopeOfTopLevelFile()
    ensures GetScope("a.txt") == "a"
    ensures GetScope("") == ""
  {
    SplitWithoutSeparator("a.txt", '/');
    ExampleSegments();
    assert ["a.txt"][..0] == [];
    SplitWithoutSeparator("txt", '.');
    SplitAfterPiece("a", '.', "txt");
    assert "a.txt" == "a" + ['.'] + "txt";
    SplitWithoutSeparator("", '/');
    SplitWithoutSeparator("", '.');
    assert [""][..0] == [];
  }

  // ---------------------------------------------------------------------
  // createSummaryCommitMessage
  // ---------------------------------------------------------------------

  /** `${file.commitType}(${scope}): ${description}`. */
  function ScopedLine(f: RepoFile): (line: string)
    ensures var t := Show(f.commitType); |t| < |line| && line[..|t| + 1] == t + "("
    ensures |Description(f)| <= |line| && line[|line| - |Description(f)|..] == Description(f)
  {
    Show(f.commitType) + "(" + GetScope(f.path) + "): " + Description(f)
  }

  /** `new Set(files.map(f => f.commitType))`. */
  function CommitTypes(files: seq<RepoFile>): (types: set<Option<string>>)
    ensures types == {} <==> files == []
    ensures forall i :: 0 <= i < |files| ==> files[i].commitType in types
    ensures forall t :: t in types ==> exists i :: 0 <= i < |files| && files[i].commitType == t
  {
    if files == [] then {}
    else
      var types := set i | 0 <= i < |files| :: files[i].commitType;
      assert files[0].commitType in types;
      types
  }

  /** The headline type of a mixed batch: feat over fix over chore. */
  function PrimaryType(files: seq<RepoFile>): (t: string)
    ensures t == "feat" <==> exists i :: 0 <= i < |files| && files[i].commitType == Some("feat")
    ensures t == "fix" <==> (forall i :: 0 <= i < |files| ==> files[i].commitType != Some("feat"))
                            && exists i :: 0 <= i < |files| && files[i].commitType == Some("fix")
    ensures t == "chore" <==> forall i :: 0 <= i < |files| ==> files[i].commitType !in {Some("feat"), Some("fix")}
  {
    var types := CommitTypes(files);
    if Some("feat") in types then "feat" else if Some("fix") in types then "fix" else "chore"
  }

  /** Reordering a batch keeps its set of types: every type of one is a type of the other. */
  lemma SameFilesSameTypes(a: seq<RepoFile>, b: seq<RepoFile>)
    requires multiset(a) == multiset(b)
    ensures CommitTypes(a) <= CommitTypes(b)
  {
    forall t | t in CommitTypes(a) ensures t in CommitTypes(b) {
      var i :| 0 <= i < |a| && a[i].commitType == t;
      assert a[i] in multiset(b);
      var j :| 0 <= j < |b| && b[j] == a[i];
    }
  }

  /** The headline type depends only on which types occur: not on the files, their order or their number. */
  lemma PrimaryTypeIgnoresOrder(a: seq<RepoFile>, b: seq<RepoFile>)
    requires CommitTypes(a) == CommitTypes(b)
    ensures PrimaryType(a) == PrimaryType(b)
  {
  }

  /** In particular a reordered batch gets the same headline type. */
  lemma PrimaryTypeOfReorderedBatch(a: seq<RepoFile>, b: seq<RepoFile>)
    requires multiset(a) == multiset(b)
    ensures PrimaryType(a) == PrimaryType(b)
  {
    SameFilesSameTypes(a, b);
    SameFilesSameTypes(b, a);
    PrimaryTypeIgnoresOrder(a, b);
  }

  /** The subject of a multi-file message: a single line with the type, fixed words and decimal digits. */
  function Subject(files: seq<RepoFile>): (subject: string)
    ensures '\n' !in subject
  {
    var t, n := PrimaryType(files), NatToString(|files|);
    var before, after := ": update ", " files across multiple scopes";
    assert '\n' !in n by {
      assert forall i :: 0 <= i < |n| ==> '0' <= n[i] <= '9';
    }
    assert '\n' !in t && '\n' !in before && '\n' !in after;
    t + before + n + after
  }

  function Bullets(files: seq<RepoFile>): (lines: seq<string>)
    ensures |lines| == |files|
  {
    seq(|files|, i requires 0 <= i < |files| => "* " + ScopedLine(files[i]))
  }

  /** Each bullet of a multi-file message is the message that file alone would get, behind `* `. */
  lemma BulletIsSingleFileMessage(files: seq<RepoFile>, i: nat)
    requires i < |files|
    ensures Bullets(files)[i] == "* " + CreateSummaryCommitMessage([files[i]])
  {
  }

  const EmptyCommitMessage := "chore: empty commit"

  /** `createSummaryCommitMessage`. */
  function CreateSummaryCommitMessage(files: seq<RepoFile>): (msg: string)
    ensures |files| == 0 ==> msg == EmptyCommitMessage
    ensures |files| == 1 ==> msg == ScopedLine(files[0])
  {
    if |files| == 0 then EmptyCommitMessage
    else if |files| == 1 then ScopedLine(files[0])
    else Subject(files) + "\n\n" + Join(Bullets(files), "\n")
  }

  /** A one-line subject, a blank line and a body of lines: how such a text splits into lines. */
  lemma LinesOfMessage(subject: string, bullets: seq<string>)
    requires '\n' !in subject && |bullets| >= 1
    ensures Split(subject + "\n\n" + Join(bullets, "\n"), '\n')[0] == subject
    ensures (forall i :: 0 <= i < |bullets| ==> '\n' !in bullets[i]) ==>
      Split(subject + "\n\n" + Join(bullets, "\n"), '\n') == [subject, ""] + bullets
  {
    var body := Join(bullets, "\n");
    var rest := "" + ['\n'] + body;
    assert subject + "\n\n" + body == subject + ['\n'] + rest;
    SplitAfterPiece(subject, '\n', rest);
    if forall i :: 0 <= i < |bullets| ==> '\n' !in bullets[i] {
      var lines := [subject, ""] + bullets;
      assert Join([""] + bullets, "\n") == rest by {
        assert ([""] + bullets)[1..] == bullets;
      }
      assert Join(lines, "\n") == subject + "\n" + rest by {
        assert lines[1..] == [""] + bullets;
      }
      SplitJoin(lines, '\n');
    }
  }

  /**
   * The layout of a multi-file message: its first line is the subject, and
   * when no bullet spans lines, the lines are the subject, a blank line and
   * one bullet per file in input order.
   */
  lemma SummaryLayout(files: seq<RepoFile>)
    requires |files| >= 2
    ensures Split(CreateSummaryCommitMessage(files), '\n')[0] == Subject(files)
    ensures (forall i :: 0 <= i < |files| ==> '\n' !in Bullets(files)[i]) ==>
      Split(CreateSummaryCommitMessage(files), '\n') == [Subject(files), ""] + Bullets(files)
  {
    LinesOfMessage(Subject(files), Bullets(files));
  }

  /** A one-file batch is described by its own line: its type, its scope, then its message or `update <name>`. */
  lemma SingleFileExamples()
    ensures CreateSummaryCommitMessage([RepoFile("foo.js", "src/commands/foo.js", "", Idle, Some("feat"), None)])
      == "feat(commands): update foo.js"
    ensures CreateSummaryCommitMessage([RepoFile("a.txt", "a.txt", "x", Idle, Some("fix"), Some("patch a"))])
      == "fix(a): patch a"
    ensures CreateSummaryCommitMessage([RepoFile("a.txt", "a.txt", "x", Idle, None, None)])
      == "undefined(a): update a.txt"
  {
    NestedFileExample();
    OwnMessageExample();
    AbsentTypeExample();
  }

  // The three examples are kept apart so that each one stays cheap for the solver.

  lemma NestedFileExample()
    ensures ScopedLine(RepoFile("foo.js", "src/commands/foo.js", "", Idle, Some("feat"), None))
      == "feat(commands): update foo.js"
  {
    GetScopeOfNestedFile();
    var f := RepoFile("foo.js", "src/commands/foo.js", "", Idle, Some("feat"), None);
    assert ScopedLine(f) == "feat" + "(" + "commands" + "): " + ("update " + "foo.js");
    FeatLine();
  }

  lemma OwnMessageExample()
    ensures ScopedLine(RepoFile("a.txt", "a.txt", "x", Idle, Some("fix"), Some("patch a"))) == "fix(a): patch a"
  {
    GetScopeOfTopLevelFile();
    var g := RepoFile("a.txt", "a.txt", "x", Idle, Some("fix"), Some("patch a"));
    assert ScopedLine(g) == "fix" + "(" + "a" + "): " + "patch a";
    FixLine();
  }

  lemma AbsentTypeExample()
    ensures ScopedLine(RepoFile("a.txt", "a.txt", "x", Idle, None, None)) == "undefined(a): update a.txt"
  {
    GetScopeOfTopLevelFile();
    var h := RepoFile("a.txt", "a.txt", "x", Idle, None, None);
    assert ScopedLine(h) == "undefined" + "(" + "a" + "): " + ("update " + "a.txt");
    UndefinedLine();
  }

  // The expected lines, piece by piece, each proved apart from everything else.

  lemma FeatLine()
    ensures "feat" + "(" + "commands" + "): " + ("update " + "foo.js") == "feat(commands): update foo.js"
  {
  }

  lemma FixLine()
    ensures "fix" + "(" + "a" + "): " + "patch a" == "fix(a): patch a"
  {
  }

  lemma UndefinedLine()
    ensures "undefined" + "(" + "a" + "): " + ("update " + "a.txt") == "undefined(a): update a.txt"
  {
  }

  /** The headline of a mixed batch follows the precedence, whatever the order of the files. */
  lemma PrimaryTypeExamples(a: RepoFile, b: RepoFile)
    requires a.commitType == Some("feat") && b.commitType == Some("chore")
    ensures PrimaryType([a, b]) == "feat" && PrimaryType([b, a]) == "feat"
    ensures PrimaryType([b.(commitType := Some("fix")), b]) == "fix"
    ensures PrimaryType([b, b]) == "chore"
  {
    assert [a, b][0] == a && [b, a][1] == a;
    assert [b.(commitType := Some("fix")), b][0].commitType == Some("fix");
  }

  /** `feat` beats `fix`, whichever comes first. */
  lemma FeatBeatsFix(a: RepoFile, c: RepoFile)
    requires a.commitType == Some("feat") && c.commitType == Some("fix")
    ensures PrimaryType([a, c]) == "feat" && PrimaryType([c, a]) == "feat"
  {
    assert [a, c][0] == a && [c, a][1] == a;
  }

  /** The subject of a multi-file message opens with the headline type and a colon, and its count reads back as the number of files. */
  lemma SubjectOpensWithType(files: seq<RepoFile>)
    ensures var t := PrimaryType(files);
      Subject(files)[..|t| + 1] == t + ":"
    ensures var s, t := Subject(files), PrimaryType(files);
      var lo, hi := |t| + |": update "|, |s| - |" files across multiple scopes"|;
      lo <= hi && IsDigits(s[lo..hi]) && DecimalValue(s[lo..hi]) == |files|
  {
    var t, n := PrimaryType(files), NatToString(|files|);
    var s := Subject(files);
    assert s == t + ": update " + n + " files across multiple scopes";
    assert s[|t| + |": update "|..|s| - |" files across multiple scopes"|] == n;
    NatToStringValue(|files|);
  }

  // ---------------------------------------------------------------------
  // commitMultipleFiles
  // ---------------------------------------------------------------------

  /** The run of the current service: every request carries the token, trimmed. */
  function CurrentJob(branch: string, token: string, files: seq<RepoFile>): (job: Job)
    ensures job.refAuth == job.auth == "token " + Trim(token)
    ensures job.branch == branch && job.files == files
  {
    var auth := AuthHeader(Some(token)).value;
    Job(auth, auth, branch, files)
  }

  /**
   * `commitMultipleFiles` with the token passed to every step (the
   * evidently intended code; see StepOneHeaderAsWritten) and the tree
   * entries taken from the created blobs (see TreeEntriesAsWritten): the
   * whole plan with the summary message, stopping at the first rejection;
   * the branch moves to the new commit only when every request was
   * accepted.
   */
  method CommitMultipleFiles(remote: Remote, branch: string, token: string, files: seq<RepoFile>)
    returns (r: Result<Sha, string>, ghost k: nat)
    requires remote.Valid()
    modifies remote`log, remote`store, remote`head
    ensures remote.Valid()
    ensures RanCommit(CurrentJob(branch, token, files), CreateSummaryCommitMessage(files),
                      BaseOf(old(remote.store), old(remote.head)), remote.reply,
                      old(remote.log), old(remote.store), old(remote.head),
                      remote.log, remote.store, remote.head, r, k)
  {
    r, k := CommitBatch(remote, CurrentJob(branch, token, files), CreateSummaryCommitMessage(files));
  }

  // ---------------------------------------------------------------------
  // The source as written
  // ---------------------------------------------------------------------

  /** The `message` of the `ReferenceError` the unbound `file` raises. */
  const FileIsUnbound := "file is not defined"

  /**
   * The tree entries as written at line 114: the callback reads `file.path`,
   * and no `file` is in scope there, so the first entry built throws.
   */
  function TreeEntriesAsWritten(blobs: seq<FileBlob>): (r: Result<seq<TreeEntry>, string>)
    ensures r.Failure? <==> blobs != []
    ensures r.Failure? ==> r.error == FileIsUnbound
  {
    if blobs == [] then Success([]) else Failure(FileIsUnbound)
  }

  /** As written, every non-empty batch fails while building the tree; only the empty batch agrees with the intended entries. */
  lemma UnboundFileBreaksEveryNonEmptyBatch(blobs: seq<FileBlob>)
    ensures TreeEntriesAsWritten(blobs).Failure? <==> |blobs| > 0
    ensures |blobs| > 0 ==> |TreeEntries(blobs)| > 0
    ensures TreeEntriesAsWritten(blobs).Success? ==> TreeEntriesAsWritten(blobs).value == TreeEntries(blobs)
  {
  }

  /**
   * The header of the first request as written at line 102, which calls
   * `getLatestCommitSha(repo, branch)` without the token: `apiFetch` then
   * trims `undefined` and throws before sending anything.
   */
  function StepOneHeaderAsWritten(): (r: Result<string, string>)
    ensures r == Failure(TrimOfUndefined)
  {
    AuthHeader(None)
  }

  /** With the token passed, the same step has a header and goes out; without it, it never does. */
  lemma MissingTokenStopsStepOne(token: string)
    ensures StepOneHeaderAsWritten().Failure?
    ensures AuthHeader(Some(token)).Success? && AuthHeader(Some(token)).value == CurrentJob("", token, []).refAuth
  {
  }
}
