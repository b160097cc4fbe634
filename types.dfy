/**
 * The staged-file record as the code builds and reads it. The declared
 * interface lists only name, content and a four-valued status; the hook adds
 * `path`, the upload form reads `commitType`, `commitMessage` and a
 * `generating` status, and the summary builder reads all of them. Files
 * created by the hook never set `commitType` or `commitMessage`, so both are
 * optional here, as JavaScript's `undefined`.
 */
module Types {
  import opened Wrappers

  datatype Status = Idle | Generating | Committing | Committed | Error

  datatype RepoFile = RepoFile(
    name: string,
    path: string,
    content: string,
    status: Status,
    commitType: Option<string>,
    commitMessage: Option<string>)

  /**
   * File content as sent to the remote: the browser's Base64 encoding of the
   * text, kept symbolic (the encoding itself is not modelled).
   */
  datatype Encoded = Base64(text: string)

  /** How a template literal renders an optional string: `undefined` when absent. */
  function Show(v: Option<string>): (s: string)
    ensures v.Some? ==> s == v.value
    ensures v.None? ==> s == "undefined"
  {
    match v
    case Some(x) => x
    case None => "undefined"
  }

  /** `file.commitMessage || `update ${file.name}``: the user's message, or a default. */
  function Description(f: RepoFile): (d: string)
    ensures d != []
    ensures f.commitMessage.Some? && f.commitMessage.value != [] ==> d == f.commitMessage.value
    ensures !(f.commitMessage.Some? && f.commitMessage.value != []) ==> d == "update " + f.name
  {
    match f.commitMessage
    case Some(m) => if m != "" then m else "update " + f.name
    case None => "update " + f.name
  }
}
