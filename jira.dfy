/**
  The Jira instance as the migration reads it.  Every Jira call of the engine is a read, so the
  instance is a value: the project's issues in search order and, for each kind of call, the answer
  it gives (an oracle).  The local staging disk used while downloading attachments is a value too.
*/
module Jira {
  import opened Common

  /** A Jira user as the user search returns it. */
  datatype JiraUser = JiraUser(name: string, emailAddress: string, displayName: string)

  /** An issue as the project search lists it (only the fields the migration reads). */
  datatype Listed = Listed(id: string, key: string, summary: string, description: string, creator: string)

  datatype JiraComment = JiraComment(id: string, body: string, author: string)

  datatype JiraAttachment = JiraAttachment(id: string, filename: string, author: string)

  /** The full issue record returned by Issue.Get. */
  datatype Detail = Detail(
    id: string,
    created: int,
    status: string,
    assignee: string,
    comments: seq<JiraComment>,
    attachments: seq<JiraAttachment>)

  /** The Jira site: the project's issues and the answers of its read calls. */
  datatype Site = Site(
    issues: seq<Listed>,                       // the project's issues, in search order
    searchFails: nat -> bool,                  // the search starting at this offset fails
    get: string -> Result<Detail>,             // Issue.Get by issue id
    findUser: string -> Result<seq<JiraUser>>, // User.Find by user name
    downloadFails: string -> bool)             // DownloadAttachment by attachment id fails

  /** The local staging area for downloaded attachments. */
  datatype Disk = Disk(
    tmpDir: string -> string,      // the time-stamped staging directory in use for an attachment id
    createFails: string -> bool,   // os.Create of this path fails
    copyFails: string -> bool)     // copying the downloaded body of this attachment id fails

  /** `limit` of project.go: 0 means "no limit", so the page size is always 1000. */
  const Limit: nat := 0

  const PageSize: nat := if Limit != 0 then Limit else 1000

  function Min(a: int, b: int): int
  {
    if a <= b then a else b
  }

  /** Jira's answer to `project = NAME` with StartAt `offset` and MaxResults PageSize. */
  function SearchPage(site: Site, offset: nat): (r: Result<seq<Listed>>)
    ensures r.Ok? ==> |r.value| <= PageSize
    ensures r.Ok? && offset + PageSize <= |site.issues| ==> r.value == site.issues[offset..offset + PageSize]
    ensures r.Ok? && offset + PageSize > |site.issues| ==> |r.value| < PageSize
  {
    if site.searchFails(offset) then Err("search failed")
    else Ok(site.issues[Min(offset, |site.issues|)..Min(offset + PageSize, |site.issues|)])
  }
}
