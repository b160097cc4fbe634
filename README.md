# github-web: a Dafny model of the staging and publishing core

github-web is a browser front end that stages local files and publishes
them to a GitHub repository. This project models three parts of it, and
proves what they promise:

- the commit-message policy. This covers the Conventional-Commit type of a
  path and the per-file message of the `useGitHub` hook. It also covers the
  scope rule and the summary message of the API service, and the older
  service's inline message;
- the staging store of the hook. This covers the staged list, the basename
  index built from a scan, the per-file publish flow
  (`idle → committing → committed | error`), the stop-on-first-failure
  batch loop with its pruning, and the token persistence effects;
- the single-commit tree protocol of both revisions of the API service
  (`src/services` and the older `src/service`). It reads the branch tip and
  its tree, creates one blob per file, one tree and one commit, and then
  moves the branch.

## Layout

| file | module | contents |
|---|---|---|
| wrappers.dfy | Wrappers | `Option`, `Result` |
| types.dfy | Types | the staged-file record (`RepoFile`), its status, how an optional string renders |
| strings.dfy | Strings | the JavaScript string operations the core uses: `split`/`join`, `includes`, `trim`, a case-insensitive suffix test, decimal rendering |
| github_rest.dfy | GitHubRest | `apiFetch`'s error rule, the Authorization header of each revision, `getFileContent` |
| git_remote.dfy | GitRemote | the remote: class `Remote` with a branch tip, an append-only object store and a request log |
| commit_protocol.dfy | CommitProtocol | the request plan of a run, its stages as methods, and what a run leaves behind |
| github_api.dfy | GithubApi | `getScope`, `createSummaryCommitMessage`, `commitMultipleFiles` of `src/services`, and the code as written |
| legacy_github_api.dfy | LegacyGithubApi | the inline message and `commitMultipleFiles` of `src/service` |
| use_github.dfy | UseGitHub | the pure logic of the hook and the functions that specify its state changes |
| session.dfy | GitHubSession | class `Session`: the hook's state and its handlers and effects as methods |

The remote is abstract. Whether it accepts the n-th request it ever
receives is given by a script (`Answer(reply, n)`). An object's sha is its
position in the store, so a run's objects get consecutive shas. The hook's
requests are answered by an `Outcome` per staged file. An upload is the
text the file reader produced. The browser's storage is a `map` field.

Where the code does something other than its names and types suggest, the
model follows the code:

- The hook creates staged files without `commitType` or `commitMessage`; it
  does not default them to `feat` and `""`. The two fields are `Option`s,
  and an absent one renders as `undefined` in a message, as a template
  literal renders it.
- The persistence effect clears the stored token not only when persistence
  is switched off, but also whenever the token is empty.
- The hook publishes file by file through the contents API, not through the
  tree protocol. Its pruning after a full success is its own.
- The older service sends its first request with the header
  `token undefined`, because it does not pass the token to that request.

## Model

| member | source | states |
|---|---|---|
| Types.Show | src/services/githubApi.ts:79 | an absent value renders as `undefined`, a present one as itself |
| Types.Description | src/services/githubApi.ts:78 | the description is the file's own message when it is non-empty, else `update <name>`; it is never empty |
| Strings.Split | src/services/githubApi.ts:71 | `split` returns at least one piece, and no piece contains the separator |
| Strings.JoinSplit | src/services/githubApi.ts:91 | joining the pieces of a split with the same separator gives back the string |
| Strings.SplitJoin | src/services/githubApi.ts:91 | splitting a join of separator-free pieces gives back the pieces |
| Strings.LastPieceIsAfterLast | src/hooks/useGitHub.ts:97 | the last piece of a split is the text after the last separator |
| Strings.Contains | src/hooks/useGitHub.ts:10-11 | `includes` holds exactly when the text occurs at some position |
| Strings.EndsWithIgnoringCase | src/hooks/useGitHub.ts:12-13 | a match needs the suffix to fit in the text, and an exact suffix always matches |
| Strings.Trim | src/services/githubApi.ts:6 | the result neither starts nor ends with white space |
| Strings.TrimDropsOnlyWhiteSpace | src/services/githubApi.ts:6 | `trim` keeps a contiguous part of the token and drops only white space on either side |
| Strings.TrimIdempotent | src/services/githubApi.ts:6 | trimming twice is trimming once |
| Strings.NatToStringValue | src/service/githubApi.ts:93 | the decimal rendering of a count is digits and reads back as the count |
| GitHubRest.ErrorText | src/services/githubApi.ts:15-18 | a non-empty remote message is the error text; otherwise the fixed prefix and the status text |
| GitHubRest.ApiFetch | src/services/githubApi.ts:5-20 | success exactly on an ok reply, with its data; otherwise the error text |
| GitHubRest.ErrorTextIsVerbatimOrPrefixed | src/services/githubApi.ts:17 | the error is never empty; a non-empty remote message is passed verbatim, and an absent or empty one gives the fixed prefix |
| GitHubRest.AuthHeader | src/services/githubApi.ts:6-11 | the header is `token ` plus the trimmed token; without a token, trimming `undefined` fails before any request |
| GitHubRest.LegacyAuthHeader | src/service/githubApi.ts:10 | the header is `token ` plus the token as given, or `token undefined` without one |
| GitHubRest.AuthHeaderIgnoresSurroundingWhiteSpace | src/services/githubApi.ts:6 | tokens that differ only in surrounding white space give the same header |
| GitHubRest.GetFileContent | src/services/githubApi.ts:28-38 | the content on success; `""` when the error mentions `Not Found`; any other error unchanged |
| GitHubRest.GetFileContentNeverReportsNotFound | src/services/githubApi.ts:33-36 | a failure of `getFileContent` never mentions `Not Found`, and it is the request's own failure |
| GitHubRest.MissingFileReadsAsEmpty | src/service/githubApi.ts:27-37 | a 404 reply reads as an empty file, with or without a message |
| GitRemote.ObjectOf | src/services/githubApi.ts:43-59 | each creation request adds exactly one object; reads and the ref update add none |
| GitRemote.LeadingAccepts | src/services/githubApi.ts:96-127 | counts the requests accepted before the first rejection, and it is at most the number issued |
| GitRemote.LeadingAcceptsIs | src/services/githubApi.ts:96-127 | any count with that property is the number of leading acceptances |
| GitRemote.Remote.LatestCommitSha | src/services/githubApi.ts:40-41 | reading the ref logs one request and returns the tip, or the rejection's error text |
| GitRemote.Remote.CommitTree | src/services/githubApi.ts:103-104 | reading the tip commit logs one request and returns its tree; a sha that names no commit gives `Not Found` |
| GitRemote.Remote.Create | src/services/githubApi.ts:43-59 | an accepted creation appends its object and returns the new object's sha; a rejected one appends nothing |
| GitRemote.Remote.UpdateBranchRef | src/services/githubApi.ts:61-65 | an accepted update that names a commit moves the branch there; anything else leaves the branch where it was |
| CommitProtocol.TreeEntries | src/services/githubApi.ts:113-118 | one tree entry per created blob, in order, with that blob's path and sha, mode `100644` and type `blob` |
| CommitProtocol.FileBlobs | src/services/githubApi.ts:106-111 | one blob per file, in file order, carrying that file's path |
| CommitProtocol.TreePlan | src/services/githubApi.ts:102-120 | the tree stage issues two reads, one blob per file and one tree: files + 3 requests |
| CommitProtocol.Plan | src/services/githubApi.ts:102-125 | a complete run issues files + 5 requests |
| CommitProtocol.Objects | src/services/githubApi.ts:106-124 | a complete run creates files + 2 objects |
| CommitProtocol.RanStopsAtFirstRejection | src/services/githubApi.ts:96-127 | how far a run gets depends only on the remote's answers: it stops at the first rejection |
| CommitProtocol.TreePlanIsPrefix | src/services/githubApi.ts:102-120 | the tree stage is the beginning of every complete run, in requests and in objects |
| CommitProtocol.RefUpdateIsLast | src/services/githubApi.ts:125 | the ref update is the last request of a run and the only one that touches a ref |
| CommitProtocol.RefMovesOnlyAfterEveryStep | src/services/githubApi.ts:96-127 | a prefix of the plan contains the ref update exactly when it is the whole plan |
| CommitProtocol.TreeHasOneEntryPerFile | src/services/githubApi.ts:113-120 | the new tree is based on the tip's tree and has one entry per file, in file order, pointing at that file's blob |
| CommitProtocol.CommitOnTopOfTip | src/services/githubApi.ts:124 | the new commit points at the new tree and has the old tip as its only parent |
| CommitProtocol.BlobStageInPlan | src/services/githubApi.ts:106-111 | the blob requests and blobs sit between the two reads and the tree |
| CommitProtocol.CreateBlobs | src/services/githubApi.ts:106-111 | the blob stage runs in file order and stops at the first rejection; on success it returns each file's path and blob sha |
| CommitProtocol.ReadTip | src/services/githubApi.ts:102-104 | the two reads return the tip and its tree, or stop at the first rejection, with nothing created |
| CommitProtocol.BuildTree | src/services/githubApi.ts:102-120 | the tree stage follows the plan up to the first rejection; it returns the tip and the new tree only when all of it was accepted, and it never moves the branch |
| CommitProtocol.FinishCommit | src/services/githubApi.ts:124-126 | the commit and the ref update: the branch moves to the new commit only when both were accepted |
| CommitProtocol.BranchMovesOnlyAfterCompleteRun | src/services/githubApi.ts:96-127 | if the branch moved, every request was accepted, and the log and the store gained exactly the whole plan and all its objects |
| CommitProtocol.TreeStageLeavesRefAlone | src/services/githubApi.ts:102-120 | no request of the tree stage is a ref update |
| CommitProtocol.PlanIsTreeStageThenFinish | src/services/githubApi.ts:120-125 | a complete run is the tree stage followed by the commit and the ref update |
| CommitProtocol.TreeStageFailureEndsRun | src/services/githubApi.ts:96-127 | a failure in the tree stage is a run that stopped there, with the branch unchanged |
| CommitProtocol.FinishStageEndsRun | src/services/githubApi.ts:124-127 | a tree stage followed by the finish stage is a run of the whole plan |
| CommitProtocol.CommitBatch | src/services/githubApi.ts:96-127 | a run follows the plan up to the first rejection; it returns the new commit and moves the branch only when every request was accepted, and otherwise reports the first rejection |
| GithubApi.ScopeNames | src/services/githubApi.ts:71 | every kept segment is non-empty and has no dot, and every such segment is kept |
| GithubApi.ScopeNameTest | src/services/githubApi.ts:71 | the filter's test `p && !p.includes('.')` holds exactly for a non-empty segment without a dot |
| GithubApi.LastScopeIndex | src/services/githubApi.ts:71-72 | the position of the last segment that is non-empty and has no dot, or -1 |
| GithubApi.ScopeNamesLast | src/services/githubApi.ts:71-72 | `pop()` of the kept segments is the last qualifying segment; none are kept exactly when none qualifies |
| GithubApi.GetScope | src/services/githubApi.ts:70-73 | a scope never contains a dot; a path without `/` or `.` is its own scope |
| GithubApi.GetScopeSpec | src/services/githubApi.ts:70-73 | the scope is the last dot-free non-empty segment, or, when there is none, the text before the first dot |
| GithubApi.GetScopeOfSegments | src/services/githubApi.ts:70-73 | the last non-empty dot-free segment is the scope, whatever comes before it, when every later segment is empty or has a dot |
| GithubApi.GetScopeOfNestedFile | src/services/githubApi.ts:70-73 | `src/commands/foo.js` gets `commands`, and `src/Makefile` gets `Makefile` |
| GithubApi.GetScopeOfTopLevelFile | src/services/githubApi.ts:72 | `a.txt` gets `a`, and the empty path gets `""` |
| GithubApi.PrimaryType | src/services/githubApi.ts:82-83 | `feat` if any file is a feature, else `fix` if any is a fix, else `chore` |
| GithubApi.CommitTypes | src/services/githubApi.ts:82 | the set holds exactly the batch's types, and is empty exactly for an empty batch |
| GithubApi.PrimaryTypeIgnoresOrder | src/services/githubApi.ts:82 | batches with the same set of types get the same primary type |
| GithubApi.PrimaryTypeOfReorderedBatch | src/services/githubApi.ts:82-83 | the same files in another order get the same primary type |
| GithubApi.ScopedLine | src/services/githubApi.ts:75-79 | a file's line opens with its type (or `undefined`) and `(`, and ends with its description |
| GithubApi.Bullets | src/services/githubApi.ts:87-91 | one bullet per file, in input order |
| GithubApi.BulletIsSingleFileMessage | src/services/githubApi.ts:75-90 | each bullet is `* ` followed by that file's own single-file message |
| GithubApi.CreateSummaryCommitMessage | src/services/githubApi.ts:67-94 | empty batch: `chore: empty commit`; one file: its own line; several: the subject, a blank line and one bullet per file |
| GithubApi.Subject | src/services/githubApi.ts:85 | the subject of a multi-file message has no line break |
| GithubApi.SummaryLayout | src/services/githubApi.ts:85-93 | the first line of a multi-file message is the subject; when no bullet contains a line break, its lines are the subject, an empty line, then the bullets in input order |
| GithubApi.SingleFileExamples | src/services/githubApi.ts:75-80 | a file with no message gets `update <name>`; an absent type renders as `undefined` |
| GithubApi.PrimaryTypeExamples | src/services/githubApi.ts:83 | `feat` beats `chore` in either order, `fix` beats `chore`, and a batch with neither `feat` nor `fix` is `chore` |
| GithubApi.FeatBeatsFix | src/services/githubApi.ts:83 | a batch holding a `feat` and a `fix` file is `feat`, whichever comes first |
| GithubApi.SubjectOpensWithType | src/services/githubApi.ts:85 | the subject starts with the primary type and states the file count |
| GithubApi.CurrentJob | src/services/githubApi.ts:6-11 | every request of a run carries `token ` plus the trimmed token |
| GithubApi.CommitMultipleFiles | src/services/githubApi.ts:96-127 | the protocol with the summary message: the branch moves only after a complete run; the first rejection is reported |
| GithubApi.TreeEntriesAsWritten | src/services/githubApi.ts:113-118 | as written, building the entries throws `file is not defined` exactly when there is at least one blob |
| GithubApi.UnboundFileBreaksEveryNonEmptyBatch | src/services/githubApi.ts:113-118 | as written, building the tree fails for every non-empty batch |
| GithubApi.StepOneHeaderAsWritten | src/services/githubApi.ts:102 | as written, the first request fails on `undefined.trim()` before it is sent |
| GithubApi.MissingTokenStopsStepOne | src/services/githubApi.ts:40-41 | with the token passed, the first request gets the same header as every other |
| LegacyGithubApi.LegacyCommitMessage | src/service/githubApi.ts:92-94 | several files: `chore: update <N> files`; one file: `<type>(scope): <description>`; none: reading `files[0]` throws |
| LegacyGithubApi.LegacyMessageIgnoresFiles | src/service/githubApi.ts:92-93 | with several files the message depends only on how many there are |
| LegacyGithubApi.LegacyMessageCountsFiles | src/service/githubApi.ts:93 | the count in the message reads back as the number of files |
| LegacyGithubApi.LegacyMessageIgnoresPath | src/service/githubApi.ts:94 | a single file's path never reaches the message, whose scope is the literal word `scope` |
| LegacyGithubApi.LegacyJob | src/service/githubApi.ts:72 | the first request carries `token undefined`, and the others carry the token as given |
| LegacyGithubApi.CommitMultipleFiles | src/service/githubApi.ts:66-99 | a non-empty batch runs the protocol with the inline message; an empty one builds a tree and then fails, creating no commit and never moving the branch |
| UseGitHub.GetCommitType | src/hooks/useGitHub.ts:8-15 | the type is one of `feat`, `fix`, `docs`, `chore`, `refactor` |
| UseGitHub.FirstMatch | src/hooks/useGitHub.ts:8-15 | the result is a matching rule's type, or the fallback |
| UseGitHub.FirstMatchIsFirst | src/hooks/useGitHub.ts:8-15 | the first rule that matches decides |
| UseGitHub.FirstMatchOfNone | src/hooks/useGitHub.ts:14 | when no rule matches, the fallback is used |
| UseGitHub.GetCommitTypeIsFirstMatch | src/hooks/useGitHub.ts:8-15 | `getCommitType` is the first match in the rule table, in the source's order, with `refactor` as fallback |
| UseGitHub.DocsRuleMatches | src/hooks/useGitHub.ts:12 | the docs rule is a case-insensitive `.md` or `LICENSE` suffix |
| UseGitHub.ChoreRuleMatches | src/hooks/useGitHub.ts:13 | the chore rule is a case-insensitive `package.json` or `config.js` suffix |
| UseGitHub.CommandsAreFeatures | src/hooks/useGitHub.ts:10 | anything containing `src/commands` is a feature, whatever its suffix |
| UseGitHub.CommandsReadmeIsFeature | src/hooks/useGitHub.ts:10-12 | `src/commands/README.md` is a feature, not documentation |
| UseGitHub.UpperCaseMarkdownIsDocs | src/hooks/useGitHub.ts:12 | the suffix rules ignore case: `README.MD` is documentation |
| UseGitHub.AutoScope | src/hooks/useGitHub.ts:75-76 | the scope has no `/`; a path without `/` gets `general` |
| UseGitHub.Action | src/hooks/useGitHub.ts:77 | the action is `update` exactly for an idle file, and `create` otherwise |
| UseGitHub.AutoMessage | src/hooks/useGitHub.ts:73-79 | the message opens with the file's commit type and `(`, and ends with ` - ` and the author |
| UseGitHub.AutoScopeIsParentDirectory | src/hooks/useGitHub.ts:75-76 | the scope is the name of the directory holding the file; a path without `/` gets `general` |
| UseGitHub.RootFileHasGeneralScope | src/hooks/useGitHub.ts:73-79 | a root-level file's message is `<type>(general): <action> <name> - <author>` |
| UseGitHub.Author | src/hooks/useGitHub.ts:78 | the author is the username when one is set, else `user`; it is never empty |
| UseGitHub.Basename | src/hooks/useGitHub.ts:97 | a basename has no `/` |
| UseGitHub.Indexed | src/hooks/useGitHub.ts:96-98 | an item enters the index exactly when it is a blob whose path is non-empty and does not end with `/` |
| UseGitHub.BasenameIsLastSegment | src/hooks/useGitHub.ts:97 | `split('/').pop()` is the text after the last `/` |
| UseGitHub.Index | src/hooks/useGitHub.ts:94-100 | every key of the index is a non-empty name without `/` |
| UseGitHub.IndexKeys | src/hooks/useGitHub.ts:94-100 | a name is indexed exactly when some listed blob has it as its non-empty basename |
| UseGitHub.IndexLastWins | src/hooks/useGitHub.ts:98 | on a collision, the index keeps the path of the last listed blob with that basename |
| UseGitHub.IndexSize | src/hooks/useGitHub.ts:94-100 | the index has no more entries than the listing has blobs |
| UseGitHub.IndexCollisionExample | src/hooks/useGitHub.ts:94-100 | two `a.js` files in different directories: the index keeps the second |
| UseGitHub.ScanResult | src/hooks/useGitHub.ts:89-93 | an ok listing is indexed; a refused one reports the fixed scan error; a failed request reports its own message |
| UseGitHub.ScanDone | src/hooks/useGitHub.ts:102 | the number in the scan notice reads back as the size of the index |
| UseGitHub.GetFileSha | src/hooks/useGitHub.ts:129-141 | 404 means a new file (no sha); an ok reply gives its sha; any other status is an error naming the path |
| UseGitHub.ShaField | src/hooks/useGitHub.ts:156 | the sha goes into the body exactly when it is a non-empty string |
| UseGitHub.Body | src/hooks/useGitHub.ts:152-157 | the PUT body carries the auto message, the encoded content and the branch, and the sha exactly when it is a non-empty string |
| UseGitHub.NewFileHasNoSha | src/hooks/useGitHub.ts:134-156 | after a 404 the body has no sha; after an ok lookup it has the file's sha |
| UseGitHub.PutResult | src/hooks/useGitHub.ts:165-168 | the commit succeeds exactly on an ok reply; otherwise the remote's message, or `Commit failed.` without one |
| UseGitHub.FileCommits | src/hooks/useGitHub.ts:143-170 | a file commits exactly when it has a path, the lookup answers 404 or 2xx, and the PUT answers 2xx |
| UseGitHub.FileCalls | src/hooks/useGitHub.ts:143-163 | a file without a path sends nothing; otherwise the first request is the lookup, a failed lookup sends no PUT, and a file whose commit succeeds sends the lookup and then the PUT |
| UseGitHub.FailureNotice | src/hooks/useGitHub.ts:144-173 | a file without a path gets `Path is required for <name>.`; a failed commit gets `Error on <name>: ` followed by the lookup's error, or else the PUT's |
| UseGitHub.SetStatus | src/hooks/useGitHub.ts:146 | only entry `index` changes, and only its status |
| UseGitHub.SetStatusTwice | src/hooks/useGitHub.ts:149-172 | the `committing` mark is replaced by the final status |
| UseGitHub.SetPath | src/hooks/useGitHub.ts:121-123 | the length is kept, and only the path of entry `index` changes |
| UseGitHub.DropIndex | src/hooks/useGitHub.ts:126 | removing by index never lengthens the list |
| UseGitHub.DropIndexIsRemoval | src/hooks/useGitHub.ts:125-127 | exactly entry `index` goes, and the rest keep their order; an out-of-range index changes nothing |
| UseGitHub.Prune | src/hooks/useGitHub.ts:198 | no committed entry survives pruning |
| UseGitHub.PruneKeepsTheRest | src/hooks/useGitHub.ts:198 | pruning keeps every entry that is not committed, and adds none |
| UseGitHub.PruneConcat | src/hooks/useGitHub.ts:198 | pruning a concatenation prunes each part, so order and multiplicity are kept |
| UseGitHub.PruneLength | src/hooks/useGitHub.ts:198 | pruning removes exactly the committed entries, and a list without any is unchanged |
| UseGitHub.Staged | src/hooks/useGitHub.ts:114-115 | a new entry is idle, with the indexed path for its name, or `""` |
| UseGitHub.FirstFailure | src/hooks/useGitHub.ts:186-192 | the stop is the first idle file whose commit fails; every idle file before it commits |
| UseGitHub.Visited | src/hooks/useGitHub.ts:186-193 | the loop keeps the length of the list |
| UseGitHub.VisitStep | src/hooks/useGitHub.ts:187-188 | a non-idle file is skipped; an idle one takes its final status |
| UseGitHub.PushStep | src/hooks/useGitHub.ts:186-192 | each idle file adds its own requests; the loop stops right after the failing one |
| UseGitHub.IdleCount | src/hooks/useGitHub.ts:179 | no idle file is counted exactly when none is idle |
| UseGitHub.PushCalls | src/hooks/useGitHub.ts:186-192 | the visited files send at most two requests each |
| UseGitHub.AfterPush | src/hooks/useGitHub.ts:186-198 | a push never lengthens the list, and after a failure it keeps its length, since pruning happens only after a full success |
| UseGitHub.Reach | src/hooks/useGitHub.ts:186-193 | the loop never visits more files than the list holds |
| UseGitHub.PushLeavesLaterFilesAlone | src/hooks/useGitHub.ts:189-191 | after a failure the later files are untouched, so idle ones stay idle |
| UseGitHub.PushMarksFailureAndCommitsBefore | src/hooks/useGitHub.ts:186-192 | the idle files before the failure are committed, and the failing one is in error |
| UseGitHub.FullPushClearsEverything | src/hooks/useGitHub.ts:196-199 | after a full success no idle or committed entry is left, and every other entry stays |
| UseGitHub.PushCallsComeFromVisitedFiles | src/hooks/useGitHub.ts:143-192 | every request of a push is for an idle file with a path, at or before the stop |
| UseGitHub.PushMessagesSayUpdate | src/hooks/useGitHub.ts:77-188 | every commit message of a push is that of an idle file, so it announces an update |
| UseGitHub.Persisted | src/hooks/useGitHub.ts:39-47 | with persistence on and a token, both keys are written; otherwise both are removed; other keys are untouched |
| UseGitHub.Restored | src/hooks/useGitHub.ts:30-37 | a token is restored exactly when a non-empty one is stored and the flag reads `true`, and it is the stored one |
| UseGitHub.PersistThenRestore | src/hooks/useGitHub.ts:30-47 | hydration reads back exactly the token the persistence effect kept |
| UseGitHub.HydrationIsStable | src/hooks/useGitHub.ts:30-47 | after a mount, reloading restores the same token |
| UseGitHub.PersistOverwrites | src/hooks/useGitHub.ts:39-47 | the stored keys depend only on the last token and flag persisted |
| GitHubSession.Session.constructor | src/hooks/useGitHub.ts:18-28 | the first render's state: empty token, repository and username, branch `main`, persistence off, no staged files, an empty index and no notification |
| GitHubSession.Session.Mount | src/hooks/useGitHub.ts:30-47 | the token is restored only when one is stored and the flag is `true`; storage then agrees with the restored state |
| GitHubSession.Session.PersistToken | src/hooks/useGitHub.ts:39-47 | the storage becomes the persisted form of the current token and flag |
| GitHubSession.Session.SetToken | src/hooks/useGitHub.ts:39-47 | a new token is persisted or cleared at once |
| GitHubSession.Session.SetStoreToken | src/hooks/useGitHub.ts:39-47 | switching persistence writes or clears both keys at once |
| GitHubSession.Session.ScanRepo | src/hooks/useGitHub.ts:81-107 | without a token or a repository it only reports; otherwise the index is the basename index of the listing, or empty after a failure, and the notice states the count or the error |
| GitHubSession.Session.ProcessFiles | src/hooks/useGitHub.ts:109-119 | one idle entry per read file is appended at the end, with the indexed path; earlier entries are unchanged |
| GitHubSession.Session.UpdateFilePath | src/hooks/useGitHub.ts:121-123 | only the path of entry `index` changes; an out-of-range index changes nothing |
| GitHubSession.Session.RemoveFile | src/hooks/useGitHub.ts:125-127 | exactly entry `index` is removed and the rest keep their order; an out-of-range index changes nothing |
| GitHubSession.Session.CommitFile | src/hooks/useGitHub.ts:143-176 | it succeeds exactly when the file has a path, the lookup works and the PUT is accepted; the entry ends `committed` or `error`; a file without a path sends nothing |
| GitHubSession.Session.VisitIdle | src/hooks/useGitHub.ts:187-192 | committing one idle file moves the loop one file on, and the loop goes on exactly when that file is before the stop |
| GitHubSession.Session.RunPush | src/hooks/useGitHub.ts:184-193 | the loop commits idle files in list order, skips the others and stops at the first failure; it reports whether all succeeded |
| GitHubSession.Session.CommitAndPush | src/hooks/useGitHub.ts:178-201 | without a token, repository, branch or idle file it only reports; otherwise it runs the loop, and only a full success prunes the committed entries and reports success |

## Left out

- HTTP, JSON decoding and `fetch` itself: a reply is a value (`HttpReply`, `Reply`, `HookReply`, `ListingReply`), and a failed request is a message. A refused PUT whose body is not JSON is not modelled.
- Base64 (`btoa`, `unescape`, `encodeURIComponent`, `atob`): content stays symbolic as `Base64(text)`, and an ok content reply carries decoded text.
- `Promise.all` concurrency: the blob stage runs in file order and stops at the first rejection. Concurrent blob creation could create blobs after a failed one, but that does not change what the model says about the branch.
- Content addressing: a sha is a store position, not a hash of the object. Two equal objects get different shas.
- React scheduling: each handler and effect runs to completion as one method. The `isLoading` and `isScanning` flags are not modelled. Closures that see a stale render are not modelled either: the scan index is read when an upload is appended.
- `FileReader`: an upload is the text the reader produced. `ProcessFiles` appends in the order given, which stands for the order the reads complete.
- The username fetch (src/hooks/useGitHub.ts:49-67) and the commit history (`handleFetchCommits`, `fetchCommits`, `scanRepoTree`) are display-only reads. The `username` field is read but never set by a method. After a full success the hook also reloads the history, and that notice replaces the success notice; only the success notice is modelled.
- The `committing` status is set and then overwritten within `CommitFile`. The model's postcondition states only the final status.
- GitHubSession.Session.Mount: assumes it runs once, on the state of the first render (empty token, persistence off), as the hook's mount effect does.
- UseGitHub.GetCommitType: the suffix rules fold ASCII letters only. With the patterns' ASCII letters, a JavaScript `i` regular expression without the `u` flag matches the same strings.
- The components, pages and routing, the URL parsing of `ConfigSection`, and the message-suggestion handler. The handler's implementation is not part of this model.

## Findings

| source | as written | input that shows it | evidently intended | confidence | as-written member | corrected member |
|---|---|---|---|---|---|---|
| src/services/githubApi.ts:102 | `getLatestCommitSha(repo, branch)` passes no token, so `apiFetch` calls `undefined.trim()` and throws before the first request is sent | any call of `commitMultipleFiles` | pass `token` to the first request like every other | high (not executed) | GithubApi.StepOneHeaderAsWritten | GithubApi.CommitMultipleFiles |
| src/services/githubApi.ts:114 | the tree entries read `file.path`, but no `file` is in scope in that callback, so the first entry throws a `ReferenceError`. As written, line 102 throws first, so this failure shows only once line 102 passes the token | any non-empty batch, with line 102 corrected | use `blob.path`, as the older service does | high (not executed) | GithubApi.UnboundFileBreaksEveryNonEmptyBatch | CommitProtocol.TreeEntries |
