/**
  Building the in-memory project snapshot from Jira (fetchProject, getComments, getAttachements)
  and collecting the users referenced by it (PopulateUsers, containsUser, jiraGetUser).
*/
module Snapshot {
  import opened Common
  import opened Jira

  datatype Comment = Comment(body: string, creatorId: string)

  /** An attachment staged on the local disk: `fileName` is the staged path. */
  datatype Attachment = Attachment(fileName: string, creatorId: string)

  /** A user as looked up in Jira; the empty user is the zero value of Go's User struct. */
  datatype User = User(email: string, username: string, name: string)

  const EmptyUser := User("", "", "")

  /** Everything needed to recreate one issue in GitLab. */
  datatype Issue = Issue(
    creatorId: string,
    jiraId: string,
    title: string,
    description: string,
    status: string,
    assignee: string,
    labels: seq<string>,
    createdAt: int,
    comments: seq<Comment>,
    attachments: seq<Attachment>)

  /** How the run stops early: an os.Exit with its status, or a nil-pointer panic. */
  datatype Halt = Exit(code: int) | Panic

  // ---------------------------------------------------------------------------
  // Pagination

  /** The offsets 0, 1000, 2000, ... of the first `n` search requests. */
  function Offsets(n: nat): seq<nat>
  {
    seq(n, k => k * PageSize)
  }

  /**
    The search loop of fetchProject: requests pages at offsets 0, 1000, ... and stops at the
    first page with fewer than 1000 issues.  A failing search is fatal (exit status 2).
    `requested` records the offsets asked for.
  */
  method SearchAll(site: Site) returns (r: Result<seq<Listed>>, ghost requested: seq<nat>)
    ensures |requested| > 0 && requested == Offsets(|requested|)
    ensures forall k :: 0 <= k < |requested| - 1 ==> !site.searchFails(requested[k])
    ensures r.Err? <==> site.searchFails(requested[|requested| - 1])
    ensures r.Ok? ==> r.value == site.issues && |requested| == |site.issues| / PageSize + 1
    ensures r.Err? <==> exists k :: 0 <= k <= |site.issues| / PageSize && site.searchFails(k * PageSize)
  {
    var index := 0;
    var issues: seq<Listed> := [];
    requested := [];
    while true
      invariant index == |requested| * PageSize <= |site.issues|
      invariant requested == Offsets(|requested|)
      invariant issues == site.issues[..index]
      invariant forall k :: 0 <= k < |requested| ==> !site.searchFails(requested[k])
      decreases |site.issues| - index
    {
      requested := requested + [index];
      var page := SearchPage(site, index);
      if page.Err? {
        assert requested[|requested| - 1] == (|requested| - 1) * PageSize;
        return Err(page.error), requested;
      }
      issues := issues + page.value;
      if |page.value| < 1000 {
        break;
      }
      index := index + 1000;
    }
    r := Ok(issues);
    forall k | 0 <= k <= |site.issues| / PageSize
      ensures !site.searchFails(k * PageSize)
    {
      assert requested[k] == k * PageSize;
    }
  }

  // ---------------------------------------------------------------------------
  // One issue of the snapshot

  /** The comments of a Jira issue, (Body, Author) in their original order. */
  function CommentsOf(cs: seq<JiraComment>): (r: seq<Comment>)
  {
    seq(|cs|, k requires 0 <= k < |cs| => Comment(cs[k].body, cs[k].author))
  }

  /** getComments */
  method GetComments(cs: seq<JiraComment>) returns (r: seq<Comment>)
    ensures |r| == |cs|
    ensures forall k :: 0 <= k < |cs| ==> r[k] == Comment(cs[k].body, cs[k].author)
    ensures r == CommentsOf(cs)
  {
    r := [];
    for k := 0 to |cs|
      invariant r == CommentsOf(cs[..k])
    {
      r := r + [Comment(cs[k].body, cs[k].author)];
    }
    assert cs[..|cs|] == cs;
  }

  /** Where an attachment is staged: GetTmpDirFileName(filename). */
  function StagedPath(disk: Disk, a: JiraAttachment): string
  {
    disk.tmpDir(a.id) + "/" + a.filename
  }

  /** Staging an attachment fails: download, file creation or copy. */
  predicate StageFails(site: Site, disk: Disk, a: JiraAttachment)
  {
    site.downloadFails(a.id) || disk.createFails(StagedPath(disk, a)) || disk.copyFails(a.id)
  }

  /** The attachments staged before the first failure, mapped to (staged path, author). */
  function StagedPrefix(site: Site, disk: Disk, atts: seq<JiraAttachment>): seq<Attachment>
  {
    if atts == [] || StageFails(site, disk, atts[0]) then []
    else [Attachment(StagedPath(disk, atts[0]), atts[0].author)] + StagedPrefix(site, disk, atts[1..])
  }

  /** StagedPrefix keeps exactly the attachments before the first failed one, in order. */
  lemma {:induction false} StagedPrefixShape(site: Site, disk: Disk, atts: seq<JiraAttachment>)
    ensures var r := StagedPrefix(site, disk, atts);
      && |r| <= |atts|
      && (forall k :: 0 <= k < |r| ==>
            !StageFails(site, disk, atts[k]) && r[k] == Attachment(StagedPath(disk, atts[k]), atts[k].author))
      && (|r| < |atts| ==> StageFails(site, disk, atts[|r|]))
  {
    if atts != [] && !StageFails(site, disk, atts[0]) {
      StagedPrefixShape(site, disk, atts[1..]);
    }
  }

  /** getAttachements: download and stage each attachment, stopping at the first failure. */
  method GetAttachments(site: Site, disk: Disk, atts: seq<JiraAttachment>) returns (r: seq<Attachment>)
    ensures r == StagedPrefix(site, disk, atts)
  {
    r := [];
    var k := 0;
    while k < |atts|
      invariant 0 <= k <= |atts|
      invariant forall j :: 0 <= j < k ==> !StageFails(site, disk, atts[j])
      invariant StagedPrefix(site, disk, atts) == r + StagedPrefix(site, disk, atts[k..])
    {
      var a := atts[k];
      if site.downloadFails(a.id) {
        break;
      }
      var tf := StagedPath(disk, a);
      if disk.createFails(tf) {
        break;
      }
      if disk.copyFails(a.id) {
        break;
      }
      assert atts[k..][1..] == atts[k + 1..];
      r := r + [Attachment(tf, a.author)];
      k := k + 1;
    }
  }

  /** The title of a migrated issue: "KEY:summary". */
  function Title(key: string, summary: string): string
  {
    key + ":" + summary
  }

  /** Splits a title at its first colon. */
  function SplitTitle(t: string): (string, string)
  {
    if t == [] then ("", "")
    else if t[0] == ':' then ("", t[1..])
    else var (k, s) := SplitTitle(t[1..]); ([t[0]] + k, s)
  }

  /** A Jira key (PROJ-12) has no colon, so the key and summary can be read back from the title. */
  lemma {:induction false} TitleRoundTrip(key: string, summary: string)
    requires forall i :: 0 <= i < |key| ==> key[i] != ':'
    ensures SplitTitle(Title(key, summary)) == (key, summary)
  {
    if key != [] {
      var t := Title(key, summary);
      assert t[0] == key[0] != ':';
      assert t[1..] == Title(key[1..], summary);
      TitleRoundTrip(key[1..], summary);
      assert key == [key[0]] + key[1..];
    }
  }

  /** The snapshot record of a listed issue, given its detail, comments and staged attachments. */
  function ToIssue(l: Listed, d: Detail, comments: seq<Comment>, atts: seq<Attachment>): Issue
  {
    Issue(
      creatorId := if l.creator == "admin" then "root" else l.creator,
      jiraId := d.id,
      title := Title(l.key, l.summary),
      description := l.description,
      status := d.status,
      assignee := d.assignee,
      labels := ["To Do"],
      createdAt := d.created,
      comments := comments,
      attachments := atts)
  }

  /** The "admin" creator becomes "root"; every other creator is kept. */
  lemma CreatorMapping(l: Listed, d: Detail, cs: seq<Comment>, atts: seq<Attachment>)
    ensures var i := ToIssue(l, d, cs, atts);
      && (l.creator == "admin" ==> i.creatorId == "root")
      && (l.creator != "admin" ==> i.creatorId == l.creator)
      && i.labels == ["To Do"]
      && i.title == l.key + ":" + l.summary
  {
  }

  /** The record fetchProject builds for a listed issue whose detail fetch succeeded. */
  function Snapshotted(site: Site, disk: Disk, l: Listed): Issue
    requires site.get(l.id).Ok?
  {
    var d := site.get(l.id).value;
    ToIssue(l, d, CommentsOf(d.comments), StagedPrefix(site, disk, d.attachments))
  }

  /**
    The issue loop of fetchProject.  A failed Issue.Get leaves a nil issue that the loop then
    dereferences, so the run panics at the first failed detail fetch.
  */
  method BuildIssues(site: Site, disk: Disk, listed: seq<Listed>) returns (r: Result<seq<Issue>>)
    ensures r.Ok? <==> forall k :: 0 <= k < |listed| ==> site.get(listed[k].id).Ok?
    ensures r.Ok? ==> |r.value| == |listed|
    ensures r.Ok? ==> forall k :: 0 <= k < |listed| ==> r.value[k] == Snapshotted(site, disk, listed[k])
  {
    var gIssues: seq<Issue> := [];
    for k := 0 to |listed|
      invariant |gIssues| == k
      invariant forall j :: 0 <= j < k ==> site.get(listed[j].id).Ok?
      invariant forall j :: 0 <= j < k ==> gIssues[j] == Snapshotted(site, disk, listed[j])
    {
      var i := listed[k];
      var ji := site.get(i.id);
      if ji.Err? {
        return Err(ji.error);
      }
      var d := ji.value;
      var comments := GetComments(d.comments);
      var atts := GetAttachments(site, disk, d.attachments);
      var gi := Issue(
        creatorId := i.creator,
        jiraId := d.id,
        title := Title(i.key, i.summary),
        description := i.description,
        status := d.status,
        assignee := d.assignee,
        labels := ["To Do"],
        createdAt := d.created,
        comments := comments,
        attachments := atts);
      if gi.creatorId == "admin" {
        gi := gi.(creatorId := "root");
      }
      gIssues := gIssues + [gi];
    }
    r := Ok(gIssues);
  }

  // ---------------------------------------------------------------------------
  // Users referenced by the snapshot

  /** Some entry has exactly this Username. */
  function Known(users: seq<User>, n: string): (r: bool)
    ensures r <==> exists k :: 0 <= k < |users| && users[k].username == n
  {
    if users == [] then false
    else users[0].username == n || Known(users[1..], n)
  }

  /** containsUser */
  method ContainsUser(users: seq<User>, n: string) returns (r: bool)
    ensures r == Known(users, n)
  {
    for k := 0 to |users|
      invariant !Known(users[..k], n)
    {
      if users[k].username == n {
        assert users[..k + 1][k] == users[k];
        return true;
      }
      assert users[..k + 1] == users[..k] + [users[k]];
    }
    assert users[..|users|] == users;
    r := false;
  }

  /**
    jiraGetUser: a lookup error is returned as an error; a result count other than one yields
    the empty User with a nil error; exactly one result yields its email, name and display name.
  */
  function JiraGetUser(site: Site, n: string): (r: Result<User>)
    ensures site.findUser(n).Err? <==> r.Err?
    ensures site.findUser(n).Ok? && |site.findUser(n).value| != 1 ==> r == Ok(EmptyUser)
    ensures site.findUser(n).Ok? && |site.findUser(n).value| == 1 ==>
      var ju := site.findUser(n).value[0];
      r == Ok(User(ju.emailAddress, ju.name, ju.displayName))
  {
    match site.findUser(n)
    case Err(e) => Err(e)
    case Ok(ju) =>
      if |ju| != 1 then Ok(EmptyUser)
      else Ok(User(ju[0].emailAddress, ju[0].name, ju[0].displayName))
  }

  /** The creator ids PopulateUsers visits for one issue: creator, comment authors, attachment authors. */
  function CreatorsOf(i: Issue): seq<string>
  {
    [i.creatorId] + CommentAuthors(i.comments) + AttachmentAuthors(i.attachments)
  }

  function CommentAuthors(cs: seq<Comment>): seq<string>
  {
    seq(|cs|, k requires 0 <= k < |cs| => cs[k].creatorId)
  }

  function AttachmentAuthors(atts: seq<Attachment>): seq<string>
  {
    seq(|atts|, k requires 0 <= k < |atts| => atts[k].creatorId)
  }

  /** The creator ids visited for all issues, issue by issue. */
  function AllCreators(issues: seq<Issue>): seq<string>
  {
    if issues == [] then []
    else AllCreators(issues[..|issues| - 1]) + CreatorsOf(issues[|issues| - 1])
  }

  /** One visit of PopulateUsers: look the id up only when no entry has it as Username. */
  function Visit(site: Site, users: seq<User>, n: string): seq<User>
  {
    if Known(users, n) then users
    else
      match JiraGetUser(site, n)
      case Err(_) => users
      case Ok(u) => users + [u]
  }

  /** The user list after visiting `ids` in order. */
  function Collect(site: Site, users: seq<User>, ids: seq<string>): seq<User>
  {
    if ids == [] then users
    else Visit(site, Collect(site, users, ids[..|ids| - 1]), ids[|ids| - 1])
  }

  /** PopulateUsers only appends. */
  lemma {:induction false} CollectExtends(site: Site, users: seq<User>, ids: seq<string>)
    ensures users <= Collect(site, users, ids)
    ensures |Collect(site, users, ids)| <= |users| + |ids|
  {
    if ids != [] {
      CollectExtends(site, users, ids[..|ids| - 1]);
    }
  }

  /** Every appended entry is the result of looking up one of the visited ids. */
  lemma {:induction false} CollectFromLookups(site: Site, users: seq<User>, ids: seq<string>, j: nat)
    requires |users| <= j < |Collect(site, users, ids)|
    ensures exists k :: 0 <= k < |ids| && JiraGetUser(site, ids[k]) == Ok(Collect(site, users, ids)[j])
  {
    var n := |ids| - 1;
    var before := Collect(site, users, ids[..n]);
    CollectExtends(site, users, ids[..n]);
    if j < |before| {
      CollectFromLookups(site, users, ids[..n], j);
      var k :| 0 <= k < n && JiraGetUser(site, ids[..n][k]) == Ok(before[j]);
      assert ids[..n][k] == ids[k];
    } else {
      assert JiraGetUser(site, ids[n]) == Ok(Collect(site, users, ids)[j]);
    }
  }

  /** Looking `n` up exactly finds one Jira user whose name is `n`. */
  predicate ExactHit(site: Site, n: string)
  {
    site.findUser(n).Ok? && |site.findUser(n).value| == 1 && site.findUser(n).value[0].name == n
  }

  /** Every visited id with an exact Jira match ends up in the list. */
  lemma {:induction false} CollectCovers(site: Site, users: seq<User>, ids: seq<string>, k: nat)
    requires k < |ids| && ExactHit(site, ids[k])
    ensures Known(Collect(site, users, ids), ids[k])
  {
    var n := |ids| - 1;
    var before := Collect(site, users, ids[..n]);
    if k < n {
      assert ids[..n][k] == ids[k];
      CollectCovers(site, users, ids[..n], k);
      assert before <= Collect(site, users, ids);
    } else {
      if !Known(before, ids[k]) {
        assert Collect(site, users, ids)[|before|].username == ids[k];
      }
    }
  }

  /** Non-empty usernames occur at most once. */
  predicate DistinctNames(users: seq<User>)
  {
    forall i, j :: 0 <= i < j < |users| && users[i].username != "" ==> users[i].username != users[j].username
  }

  /** The search of the Jira directory is exact: a single hit has the searched name. */
  ghost predicate ExactDirectory(site: Site)
  {
    forall n :: site.findUser(n).Ok? && |site.findUser(n).value| == 1 ==> site.findUser(n).value[0].name == n
  }

  /** With an exact directory the collected users are deduplicated by username. */
  lemma {:induction false} CollectDistinct(site: Site, users: seq<User>, ids: seq<string>)
    requires ExactDirectory(site) && DistinctNames(users)
    ensures DistinctNames(Collect(site, users, ids))
  {
    if ids != [] {
      var n := |ids| - 1;
      var before := Collect(site, users, ids[..n]);
      CollectDistinct(site, users, ids[..n]);
      var after := Collect(site, users, ids);
      if after != before {
        assert after == before + [after[|before|]];
        assert !Known(before, ids[n]);
      }
    }
  }

  /** An id that is already present, or whose lookup fails, adds nothing. */
  lemma VisitKeeps(site: Site, users: seq<User>, n: string)
    requires Known(users, n) || site.findUser(n).Err?
    ensures Visit(site, users, n) == users
  {
  }

  /** A lookup with zero or several results appends the empty user. */
  lemma VisitAmbiguous(site: Site, users: seq<User>, n: string)
    requires !Known(users, n) && site.findUser(n).Ok? && |site.findUser(n).value| != 1
    ensures Visit(site, users, n) == users + [EmptyUser]
  {
  }

  /**
    Without an exact directory the deduplication fails: a single Jira hit whose name differs from
    the searched id never makes the id known, so each visit of that id appends the user again.
  */
  lemma VisitFuzzyRepeat(site: Site, users: seq<User>, n: string)
    requires !Known(users, n)
    requires site.findUser(n).Ok? && |site.findUser(n).value| == 1 && site.findUser(n).value[0].name != n
    ensures var u := JiraGetUser(site, n).value;
      && Visit(site, users, n) == users + [u]
      && Visit(site, Visit(site, users, n), n) == users + [u, u]
  {
    var u := JiraGetUser(site, n).value;
    assert !Known(users + [u], n) by {
      forall k | 0 <= k < |users + [u]|
        ensures (users + [u])[k].username != n
      {
        if k < |users| {
          assert (users + [u])[k] == users[k];
        }
      }
    }
    assert users + [u] + [u] == users + [u, u];
  }
}
