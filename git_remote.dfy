/**
 * An abstract Git data API on the remote side, as the single-commit protocol
 * sees it: one branch tip (`head`), an append-only object store, and a log
 * of every request received. Whether the remote accepts a request is
 * scripted: `Answer(reply, n)` is the answer to the n-th request it ever receives,
 * which covers bad credentials, unknown branches, rejected non-fast-forward
 * updates and network errors alike. An object's sha is its position in the
 * store (content addressing is not modelled).
 */
module GitRemote {
  import opened Wrappers
  import opened Types
  import opened GitHubRest

  type Sha = nat

  datatype TreeEntry = TreeEntry(path: string, mode: string, kind: string, sha: Sha)

  datatype GitObject =
    | Blob(content: string)
    | Tree(baseTree: Sha, entries: seq<TreeEntry>)
    | Commit(message: string, tree: Sha, parents: seq<Sha>)

  /** The requests of the protocol, in the order the source issues them. */
  datatype Call =
    | GetRef(branch: string)                                   // GET  git/ref/heads/<branch>
    | GetCommit(sha: Sha)                                      // GET  git/commits/<sha>
    | CreateBlob(payload: Encoded)                             // POST git/blobs
    | CreateTree(baseTree: Sha, entries: seq<TreeEntry>)       // POST git/trees
    | CreateCommit(message: string, tree: Sha, parents: seq<Sha>) // POST git/commits
    | UpdateRef(branch: string, sha: Sha)                      // PATCH git/refs/heads/<branch>

  /** A request as received: its Authorization header and what it asks for. */
  datatype Request = Request(auth: string, call: Call)

  datatype Reply = Accept | Reject(body: ErrorBody)

  predicate IsCreation(c: Call)
  {
    c.CreateBlob? || c.CreateTree? || c.CreateCommit?
  }

  /** The object an accepted request appends to the store: one for a creation, none otherwise. */
  function ObjectOf(c: Call): (objs: seq<GitObject>)
    ensures |objs| == (if IsCreation(c) then 1 else 0)
  {
    match c
    case CreateBlob(p) => [Blob(p.text)]
    case CreateTree(b, es) => [Tree(b, es)]
    case CreateCommit(m, t, ps) => [Commit(m, t, ps)]
    case _ => []
  }

  /** The answer to the `n`-th request: the scripted one, or acceptance once the script has run out. */
  function Answer(reply: seq<Reply>, n: nat): Reply
  {
    if n < |reply| then reply[n] else Accept
  }

  /** Requests `start` to `start + k - 1` are all accepted. */
  predicate AllAccepted(reply: seq<Reply>, start: nat, k: nat)
  {
    forall n :: start <= n < start + k ==> Answer(reply, n).Accept?
  }

  /** The number of requests, out of the next `m` starting at request number `start`, accepted before the first rejection. */
  function LeadingAccepts(reply: seq<Reply>, start: nat, m: nat): (k: nat)
    ensures k <= m
    ensures AllAccepted(reply, start, k)
    ensures k < m ==> Answer(reply, start + k).Reject?
    decreases m
  {
    if m == 0 || Answer(reply, start).Reject? then 0
    else 1 + LeadingAccepts(reply, start + 1, m - 1)
  }

  /** LeadingAccepts is pinned down by its contract: the first rejection, or `m`. */
  lemma {:induction false} LeadingAcceptsIs(reply: seq<Reply>, start: nat, m: nat, t: nat)
    requires t <= m
    requires AllAccepted(reply, start, t)
    requires t < m ==> Answer(reply, start + t).Reject?
    ensures LeadingAccepts(reply, start, m) == t
    decreases m
  {
    if m > 0 && t > 0 {
      assert Answer(reply, start).Accept?;
      LeadingAcceptsIs(reply, start + 1, m - 1, t - 1);
    }
  }

  /** Accepted runs compose: `a` accepted requests followed by `b` more. */
  lemma AcceptedThen(reply: seq<Reply>, start: nat, a: nat, b: nat)
    requires AllAccepted(reply, start, a) && AllAccepted(reply, start + a, b)
    ensures AllAccepted(reply, start, a + b)
  {
  }

  class Remote {
    var head: Sha
    var store: seq<GitObject>
    var log: seq<Request>
    const reply: seq<Reply>

    /** The branch tip names a commit in the store. */
    ghost predicate Valid()
      reads this
    {
      head < |store| && store[head].Commit?
    }

    predicate NamesCommit(sha: Sha)
      reads this
    {
      sha < |store| && store[sha].Commit?
    }

    constructor (objects: seq<GitObject>, tip: Sha, script: seq<Reply>)
      requires tip < |objects| && objects[tip].Commit?
      ensures Valid()
      ensures head == tip && store == objects && log == [] && reply == script
    {
      head := tip;
      store := objects;
      log := [];
      reply := script;
    }

    /** `getLatestCommitSha`: the sha the branch tip names. */
    method LatestCommitSha(auth: string, branch: string) returns (r: Result<Sha, string>)
      requires Valid()
      modifies this`log
      ensures Valid()
      ensures log == old(log) + [Request(auth, GetRef(branch))]
      ensures Answer(reply, |old(log)|).Accept? ==> r == Success(head)
      ensures Answer(reply, |old(log)|).Reject? ==> r == Failure(ErrorText(Answer(reply, |old(log)|).body))
    {
      var answer := Answer(reply, |log|);
      log := log + [Request(auth, GetRef(branch))];
      if answer.Reject? {
        r := Failure(ErrorText(answer.body));
      } else {
        r := Success(head);
      }
    }

    /** `GET git/commits/<sha>`: the tree of a commit; "Not Found" when the sha names no commit. */
    method CommitTree(auth: string, sha: Sha) returns (r: Result<Sha, string>)
      requires Valid()
      modifies this`log
      ensures Valid()
      ensures log == old(log) + [Request(auth, GetCommit(sha))]
      ensures Answer(reply, |old(log)|).Accept? && NamesCommit(sha) ==> r == Success(store[sha].tree)
      ensures Answer(reply, |old(log)|).Accept? && !NamesCommit(sha) ==> r == Failure(NotFound)
      ensures Answer(reply, |old(log)|).Reject? ==> r == Failure(ErrorText(Answer(reply, |old(log)|).body))
    {
      var answer := Answer(reply, |log|);
      log := log + [Request(auth, GetCommit(sha))];
      if answer.Reject? {
        r := Failure(ErrorText(answer.body));
      } else if NamesCommit(sha) {
        r := Success(store[sha].tree);
      } else {
        r := Failure(NotFound);
      }
    }

    /** `createBlob`, `createTree`, `createCommit`: append one object and return its sha. */
    method Create(auth: string, call: Call) returns (r: Result<Sha, string>)
      requires Valid() && IsCreation(call)
      modifies this`log, this`store
      ensures Valid()
      ensures log == old(log) + [Request(auth, call)]
      ensures Answer(reply, |old(log)|).Accept? ==> store == old(store) + ObjectOf(call) && r == Success(|old(store)|)
      ensures Answer(reply, |old(log)|).Reject? ==> store == old(store) && r == Failure(ErrorText(Answer(reply, |old(log)|).body))
    {
      var answer := Answer(reply, |log|);
      log := log + [Request(auth, call)];
      if answer.Reject? {
        r := Failure(ErrorText(answer.body));
      } else {
        r := Success(|store|);
        store := store + ObjectOf(call);
      }
    }

    /** `updateBranchRef`: move the branch tip; refused when the sha names no commit. */
    method UpdateBranchRef(auth: string, branch: string, sha: Sha) returns (r: Result<Sha, string>)
      requires Valid()
      modifies this`log, this`head
      ensures Valid()
      ensures log == old(log) + [Request(auth, UpdateRef(branch, sha))]
      ensures Answer(reply, |old(log)|).Accept? && NamesCommit(sha) ==> head == sha && r == Success(sha)
      ensures Answer(reply, |old(log)|).Accept? && !NamesCommit(sha) ==> head == old(head) && r == Failure("Object does not exist")
      ensures Answer(reply, |old(log)|).Reject? ==> head == old(head) && r == Failure(ErrorText(Answer(reply, |old(log)|).body))
    {
      var answer := Answer(reply, |log|);
      log := log + [Request(auth, UpdateRef(branch, sha))];
      if answer.Reject? {
        r := Failure(ErrorText(answer.body));
      } else if NamesCommit(sha) {
        head := sha;
        r := Success(sha);
      } else {
        r := Failure("Object does not exist");
      }
    }
  }
}
