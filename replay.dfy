/**
  Replaying the snapshot's issues in GitLab (MigrateIssues, Issue.Create): each issue is
  skipped when an issue with its title exists, otherwise created (with one retry), then its
  comments are posted, its attachments uploaded, and it is closed unless its status is "Open".
*/
module Replay {
  import opened Common
  import opened Gitlab
  import opened Snapshot
  import Markup

  /** `retry` of project.go. */
  const Retry: nat := 3

  /** The assignee used when the assignee has no GitLab account (user id 1). */
  const FallbackAssignee := 1

  /** The creator used when the creator has no GitLab account: sudo as user id 1. */
  const FallbackCreator := "1"

  /** The request body of the issue, description translated to Markdown. */
  function Draft(i: Issue, assignees: seq<int>): NewIssue
  {
    NewIssue(i.title, Markup.Translate(i.description), assignees, ["To Do"], i.createdAt)
  }

  /**
    The retry loop of Issue.Create from retry count `rc`.  A failed attempt increments the count,
    returns the error when it reached Retry, and increments it again before the next attempt.
  */
  function Attempts(srv: Server, w: World, pid: int, d: NewIssue, sudo: string, rc: nat): (r: (Result<GIssue>, World))
    requires rc < Retry
    decreases Retry - rc
  {
    var reply := srv.createIssue(|w.calls|);
    var w1 := Send(w, CreateIssue(pid, d, sudo));
    if reply.Ok? then (reply, w1)
    else if rc + 1 == Retry then (reply, w1)
    else if rc + 2 < Retry then Attempts(srv, w1, pid, d, sudo, rc + 2)
    else (reply, w1)
  }

  /**
    With Retry = 3 the double increment leaves room for two attempts only: the request is sent
    once when it succeeds, otherwise a second time, whose reply is the result.
  */
  lemma AttemptsAtMostTwo(srv: Server, w: World, pid: int, d: NewIssue, sudo: string)
    ensures var (r, w1) := Attempts(srv, w, pid, d, sudo, 0);
      var t := |w.calls|;
      && w1.cache == w.cache
      && (srv.createIssue(t).Ok? ==> r == srv.createIssue(t) && w1.calls == w.calls + [CreateIssue(pid, d, sudo)])
      && (srv.createIssue(t).Err? ==>
            r == srv.createIssue(t + 1) && w1.calls == w.calls + [CreateIssue(pid, d, sudo), CreateIssue(pid, d, sudo)])
  {
    var w1 := Send(w, CreateIssue(pid, d, sudo));
    assert Attempts(srv, w, pid, d, sudo, 0) ==
      if srv.createIssue(|w.calls|).Ok? then (srv.createIssue(|w.calls|), w1)
      else Attempts(srv, w1, pid, d, sudo, 2);
  }

  /** The comments loop: each body translated, posted as `sudo`, stopping at the first error. */
  function PostComments(srv: Server, w: World, pid: int, iid: int, cs: seq<Comment>, sudo: string): (r: (Outcome, World))
    decreases |cs|
  {
    if cs == [] then (Pass, w)
    else
      var o := srv.createNote(|w.calls|);
      var w1 := Send(w, CreateIssueNote(pid, iid, Markup.Translate(cs[0].body), Some(sudo)));
      if o.Fail? then (o, w1) else PostComments(srv, w1, pid, iid, cs[1..], sudo)
  }

  /** The note that posts comment `c`. */
  function CommentNote(pid: int, iid: int, c: Comment, sudo: string): Call
  {
    CreateIssueNote(pid, iid, Markup.Translate(c.body), Some(sudo))
  }

  /**
    The comments loop posts the translated comments in order, as `sudo`: all of them when it
    succeeds, otherwise those up to and including the one whose note failed.  It succeeds
    exactly when every note it sent succeeded, and a failure is the failing note's error.
  */
  lemma {:induction false} PostCommentsCalls(srv: Server, w: World, pid: int, iid: int, cs: seq<Comment>, sudo: string)
    ensures var (o, w1) := PostComments(srv, w, pid, iid, cs, sudo);
      && w1.cache == w.cache
      && w.calls <= w1.calls
      && |w1.calls| - |w.calls| <= |cs|
      && (o.Pass? ==> |w1.calls| - |w.calls| == |cs|)
      && (o.Fail? ==> |w1.calls| > |w.calls| && srv.createNote(|w1.calls| - 1) == o)
      && (o.Pass? <==> forall k :: |w.calls| <= k < |w1.calls| ==> srv.createNote(k).Pass?)
      && forall k :: |w.calls| <= k < |w1.calls| ==> w1.calls[k] == CommentNote(pid, iid, cs[k - |w.calls|], sudo)
    decreases |cs|
  {
    if cs != [] {
      var w1 := Send(w, CommentNote(pid, iid, cs[0], sudo));
      assert w1.calls[|w.calls|] == CommentNote(pid, iid, cs[0], sudo);
      if srv.createNote(|w.calls|).Pass? {
        PostCommentsCalls(srv, w1, pid, iid, cs[1..], sudo);
        var w2 := PostComments(srv, w1, pid, iid, cs[1..], sudo).1;
        assert PostComments(srv, w, pid, iid, cs, sudo) == PostComments(srv, w1, pid, iid, cs[1..], sudo);
        forall k | |w.calls| <= k < |w2.calls|
          ensures w2.calls[k] == CommentNote(pid, iid, cs[k - |w.calls|], sudo)
        {
          if k > |w.calls| {
            assert cs[1..][k - |w1.calls|] == cs[k - |w.calls|];
          }
        }
      }
    }
  }

  /**
    The attachments loop: upload each staged file and post its Markdown link as a note (not as
    `sudo`); an upload or note error ends the loop.
  */
  function PostAttachments(srv: Server, w: World, pid: int, iid: int, atts: seq<Attachment>): (r: World)
    decreases |atts|
  {
    if atts == [] then w
    else
      var up := srv.uploadFile(|w.calls|);
      var w1 := Send(w, UploadFile(pid, atts[0].fileName));
      match up
      case Err(_) => w1
      case Ok(markdown) =>
        var o := srv.createNote(|w1.calls|);
        var w2 := Send(w1, CreateIssueNote(pid, iid, markdown, None));
        if o.Fail? then w2 else PostAttachments(srv, w2, pid, iid, atts[1..])
  }

  /**
    The attachments loop only uploads the staged files, in order, at most once each, and posts
    its notes on issue `iid` without sudo.
  */
  lemma {:induction false} PostAttachmentsCalls(srv: Server, w: World, pid: int, iid: int, atts: seq<Attachment>)
    ensures var w1 := PostAttachments(srv, w, pid, iid, atts);
      && w1.cache == w.cache
      && w.calls <= w1.calls
      && |w1.calls| - |w.calls| <= 2 * |atts|
      && forall k :: |w.calls| <= k < |w1.calls| ==>
           || (w1.calls[k].UploadFile? && w1.calls[k].pid == pid && w1.calls[k].file == atts[(k - |w.calls|) / 2].fileName)
           || (w1.calls[k].CreateIssueNote? && w1.calls[k].pid == pid && w1.calls[k].iid == iid && w1.calls[k].noteSudo.None?)
    decreases |atts|
  {
    if atts != [] && srv.uploadFile(|w.calls|).Ok? && srv.createNote(|w.calls| + 1).Pass? {
      var w2 := Send(Send(w, UploadFile(pid, atts[0].fileName)), CreateIssueNote(pid, iid, srv.uploadFile(|w.calls|).value, None));
      PostAttachmentsCalls(srv, w2, pid, iid, atts[1..]);
      var w3 := PostAttachments(srv, w2, pid, iid, atts[1..]);
      forall k | |w2.calls| <= k < |w3.calls| && w3.calls[k].UploadFile?
        ensures w3.calls[k].file == atts[(k - |w.calls|) / 2].fileName
      {
        assert (k - |w.calls|) / 2 == (k - |w2.calls|) / 2 + 1;
        assert atts[1..][(k - |w2.calls|) / 2] == atts[(k - |w.calls|) / 2];
      }
    }
  }

  /** Attachment `a` was uploaded by request `t` and its Markdown posted by request `t + 1`, both successfully. */
  predicate PairPosted(srv: Server, cs: seq<Call>, t: nat, pid: int, iid: int, a: Attachment)
  {
    && t + 1 < |cs|
    && cs[t] == UploadFile(pid, a.fileName)
    && srv.uploadFile(t).Ok?
    && cs[t + 1] == CreateIssueNote(pid, iid, srv.uploadFile(t).value, None)
    && srv.createNote(t + 1).Pass?
  }

  /**
    The attachments loop from `w` to `w1` posted the first `m` attachments, two requests each,
    and then either had none left, or stopped at attachment `m`: after its failed upload, or
    after the failed note carrying its Markdown.
  */
  predicate PostedUpTo(srv: Server, w: World, w1: World, pid: int, iid: int, atts: seq<Attachment>, m: nat)
  {
    && m <= |atts|
    && w.calls <= w1.calls
    && |w.calls| + 2 * m <= |w1.calls|
    && (forall j :: 0 <= j < m ==> PairPosted(srv, w1.calls, |w.calls| + 2 * j, pid, iid, atts[j]))
    && (|| (m == |atts| && |w1.calls| == |w.calls| + 2 * m)
        || (var t := |w.calls| + 2 * m;
            && m < |atts| && t < |w1.calls|
            && w1.calls[t] == UploadFile(pid, atts[m].fileName)
            && (|| (srv.uploadFile(t).Err? && |w1.calls| == t + 1)
                || (&& srv.uploadFile(t).Ok? && |w1.calls| == t + 2
                    && w1.calls[t + 1] == CreateIssueNote(pid, iid, srv.uploadFile(t).value, None)
                    && srv.createNote(t + 1).Fail?))))
  }

  /**
    An upload or note failure only ends the attachments loop: every attachment before it was
    uploaded and linked, each note carrying its upload's Markdown, and all of them when nothing
    failed.
  */
  lemma {:induction false} PostAttachmentsExact(srv: Server, w: World, pid: int, iid: int, atts: seq<Attachment>)
    ensures var w1 := PostAttachments(srv, w, pid, iid, atts);
      w1.cache == w.cache && exists m :: PostedUpTo(srv, w, w1, pid, iid, atts, m)
    decreases |atts|
  {
    var w1 := PostAttachments(srv, w, pid, iid, atts);
    if atts == [] {
      assert PostedUpTo(srv, w, w1, pid, iid, atts, 0);
    } else if srv.uploadFile(|w.calls|).Err? || srv.createNote(|w.calls| + 1).Fail? {
      assert PostedUpTo(srv, w, w1, pid, iid, atts, 0);
    } else {
      var w2 := Send(Send(w, UploadFile(pid, atts[0].fileName)), CreateIssueNote(pid, iid, srv.uploadFile(|w.calls|).value, None));
      assert w1 == PostAttachments(srv, w2, pid, iid, atts[1..]);
      PostAttachmentsExact(srv, w2, pid, iid, atts[1..]);
      var m :| PostedUpTo(srv, w2, w1, pid, iid, atts[1..], m);
      PostedStep(srv, w, w2, w1, pid, iid, atts, m);
    }
  }

  /** Prepending one posted pair to a run of the loop over the remaining attachments. */
  lemma PostedStep(srv: Server, w: World, w2: World, w1: World, pid: int, iid: int, atts: seq<Attachment>, m: nat)
    requires atts != [] && srv.uploadFile(|w.calls|).Ok? && srv.createNote(|w.calls| + 1).Pass?
    requires w2.calls == w.calls + [UploadFile(pid, atts[0].fileName), CreateIssueNote(pid, iid, srv.uploadFile(|w.calls|).value, None)]
    requires PostedUpTo(srv, w2, w1, pid, iid, atts[1..], m)
    ensures PostedUpTo(srv, w, w1, pid, iid, atts, m + 1)
  {
    assert PairPosted(srv, w1.calls, |w.calls|, pid, iid, atts[0]) by {
      assert w1.calls[|w.calls|] == w2.calls[|w.calls|];
      assert w1.calls[|w.calls| + 1] == w2.calls[|w.calls| + 1];
    }
    forall j | 1 <= j < m + 1
      ensures PairPosted(srv, w1.calls, |w.calls| + 2 * j, pid, iid, atts[j])
    {
      assert PairPosted(srv, w1.calls, |w2.calls| + 2 * (j - 1), pid, iid, atts[1..][j - 1]);
    }
    if m < |atts[1..]| {
      assert atts[1..][m] == atts[m + 1];
    }
  }

  /** What Issue.Create did: its error result, the issue as rewritten, and the new GitLab state. */
  datatype Replayed = Replayed(outcome: Outcome, issue: Issue, world: World)

  /** The assignee ids sent: the assignee's GitLab id, or the fallback user 1. */
  function AssigneeIds(au: Option<GUser>): (r: seq<int>)
  {
    if au.Some? then [au.value.id] else [FallbackAssignee]
  }

  /** The assignee ids and the issue (creator possibly rewritten) Issue.Create sends. */
  datatype Prepared = Prepared(assignees: seq<int>, issue: Issue, world: World)

  /**
    The two user lookups of Issue.Create: the assignee (falling back to user 1) and the creator
    (falling back to sudo "1", the only change made to the issue).
  */
  function Prepare(srv: Server, w: World, i: Issue): (r: Prepared)
    ensures w.calls <= r.world.calls && |r.world.calls| <= |w.calls| + 2
    ensures forall k :: |w.calls| <= k < |r.world.calls| ==> r.world.calls[k].ListUsers?
    ensures |r.assignees| == 1
    ensures r.issue.(creatorId := i.creatorId) == i
    ensures r.issue.creatorId == i.creatorId || r.issue.creatorId == FallbackCreator
    ensures var (au, w1) := Lookup(srv, w, i.assignee);
      var (cu, w2) := Lookup(srv, w1, i.creatorId);
      && r.world == w2
      && (au.Some? ==> r.assignees == [au.value.id])
      && (au.None? ==> r.assignees == [FallbackAssignee])
      && (cu.Some? ==> r.issue == i)
      && (cu.None? ==> r.issue.creatorId == FallbackCreator)
  {
    var (au, w1) := Lookup(srv, w, i.assignee);
    var (cu, w2) := Lookup(srv, w1, i.creatorId);
    Prepared(AssigneeIds(au), if cu.None? then i.(creatorId := FallbackCreator) else i, w2)
  }

  /**
    The part of Issue.Create after the issue `iid` exists: comments (an error is returned),
    attachments (an error only ends that loop), and the "close" update unless the status is
    "Open" (its reply is ignored).
  */
  function Complete(srv: Server, w: World, pid: int, iid: int, i: Issue): (r: (Outcome, World))
  {
    var (co, w1) := PostComments(srv, w, pid, iid, i.comments, i.creatorId);
    if co.Fail? then (co, w1)
    else
      var w2 := PostAttachments(srv, w1, pid, iid, i.attachments);
      (Pass, if i.status != "Open" then Send(w2, UpdateIssue(pid, iid, "close")) else w2)
  }

  /**
    Issue.Create after a title-search miss, up to the issue's creation: the two lookups and
    one or two CreateIssue requests; the result is the reply to the last of them.
  */
  function Attempt(srv: Server, w: World, pid: int, i: Issue): (r: (Result<GIssue>, Issue, World))
    ensures w.calls < r.2.calls && r.2.calls[|r.2.calls| - 1].CreateIssue?
    ensures forall k :: |w.calls| <= k < |r.2.calls| ==> r.2.calls[k].ListUsers? || r.2.calls[k].CreateIssue?
    ensures r.0 == srv.createIssue(|r.2.calls| - 1)
    ensures var p := Prepare(srv, w, i);
      var t := |p.world.calls|;
      var c := CreateIssue(pid, Draft(p.issue, p.assignees), p.issue.creatorId);
      && r.1 == p.issue
      && r.2.cache == p.world.cache
      && (srv.createIssue(t).Ok? ==> r.0 == srv.createIssue(t) && r.2.calls == p.world.calls + [c])
      && (srv.createIssue(t).Err? ==> r.0 == srv.createIssue(t + 1) && r.2.calls == p.world.calls + [c, c])
  {
    var p := Prepare(srv, w, i);
    var d := Draft(p.issue, p.assignees);
    AttemptsAtMostTwo(srv, p.world, pid, d, p.issue.creatorId);
    var (o, w1) := Attempts(srv, p.world, pid, d, p.issue.creatorId, 0);
    (o, p.issue, w1)
  }

  /** Issue.Create */
  function CreateIssueSpec(srv: Server, w: World, pid: int, i: Issue): (r: Replayed)
  {
    var found := srv.listIssues(|w.calls|);
    var w1 := Send(w, ListProjectIssues(pid, i.title));
    if found.Ok? && |found.value| != 0 then Replayed(Pass, i, w1)
    else
      var (o, i', w4) := Attempt(srv, w1, pid, i);
      if o.Err? then Replayed(Fail(o.error), i', w4)
      else
        var (co, w5) := Complete(srv, w4, pid, o.value.iid, i');
        Replayed(co, i', w5)
  }

  /** Issue.Create returned before creating anything: the title search found an issue. */
  lemma SkipOnTitleHit(srv: Server, w: World, pid: int, i: Issue)
    requires srv.listIssues(|w.calls|).Ok? && |srv.listIssues(|w.calls|).value| > 0
    ensures CreateIssueSpec(srv, w, pid, i) == Replayed(Pass, i, Send(w, ListProjectIssues(pid, i.title)))
  {
  }

  /**
    Issue.Create changes the issue only by rewriting an unresolved creator to "1": after a
    title-search hit not at all, otherwise as the creator lookup of `Prepare` decides.
  */
  lemma CreatorRewrite(srv: Server, w: World, pid: int, i: Issue)
    ensures var r := CreateIssueSpec(srv, w, pid, i);
      && r.issue.(creatorId := i.creatorId) == i
      && (r.issue.creatorId == i.creatorId || r.issue.creatorId == FallbackCreator)
      && (srv.listIssues(|w.calls|).Ok? && |srv.listIssues(|w.calls|).value| != 0 ==> r.issue == i)
      && (!(srv.listIssues(|w.calls|).Ok? && |srv.listIssues(|w.calls|).value| != 0) ==>
            r.issue == Prepare(srv, Send(w, ListProjectIssues(pid, i.title)), i).issue)
  {
  }

  /**
    After a title-search miss Issue.Create fails exactly when both CreateIssue requests failed
    (with the second one's error) or, once the issue exists, a comment note failed (with that
    note's error).
  */
  lemma CreateIssueOutcome(srv: Server, w: World, pid: int, i: Issue)
    requires !(srv.listIssues(|w.calls|).Ok? && |srv.listIssues(|w.calls|).value| != 0)
    ensures var w1 := Send(w, ListProjectIssues(pid, i.title));
      var p := Prepare(srv, w1, i);
      var t := |p.world.calls|;
      var (o, i', w4) := Attempt(srv, w1, pid, i);
      var r := CreateIssueSpec(srv, w, pid, i);
      && r.issue == p.issue
      && (o.Err? <==> srv.createIssue(t).Err? && srv.createIssue(t + 1).Err?)
      && (o.Err? ==> r.outcome == Fail(srv.createIssue(t + 1).error) && r.world == w4)
      && (o.Ok? ==> r.outcome == PostComments(srv, w4, pid, o.value.iid, p.issue.comments, p.issue.creatorId).0)
      && (r.outcome.Fail? <==>
            || (srv.createIssue(t).Err? && srv.createIssue(t + 1).Err?)
            || (o.Ok? && PostComments(srv, w4, pid, o.value.iid, p.issue.comments, p.issue.creatorId).0.Fail?))
  {
  }

  /** A request that is only sent once the issue has been created. */
  predicate AfterComments(c: Call)
  {
    c.UploadFile? || c.UpdateIssue?
  }

  /**
    An issue that failed (its creation or one of its comments) never reaches the attachments
    or the status update.
  */
  lemma FailureStopsEarly(srv: Server, w: World, pid: int, i: Issue)
    requires CreateIssueSpec(srv, w, pid, i).outcome.Fail?
    ensures var w1 := CreateIssueSpec(srv, w, pid, i).world;
      && w.calls <= w1.calls
      && forall k :: |w.calls| <= k < |w1.calls| ==> !AfterComments(w1.calls[k])
  {
    var (o, i', w4) := Attempt(srv, Send(w, ListProjectIssues(pid, i.title)), pid, i);
    if o.Ok? {
      PostCommentsCalls(srv, w4, pid, o.value.iid, i'.comments, i'.creatorId);
    }
  }

  /**
    The part after the issue's creation fails exactly when one of the comment notes failed, with
    that note's error and nothing sent after it; the attachments and the status update never
    make it fail.
  */
  lemma CompleteOutcome(srv: Server, w: World, pid: int, iid: int, i: Issue)
    ensures var (o, w1) := Complete(srv, w, pid, iid, i);
      var wc := PostComments(srv, w, pid, iid, i.comments, i.creatorId).1;
      && w.calls <= wc.calls <= w1.calls
      && (o.Pass? <==> forall k :: |w.calls| <= k < |wc.calls| ==> srv.createNote(k).Pass?)
      && (o.Fail? ==> w1 == wc && srv.createNote(|wc.calls| - 1) == o)
  {
    PostCommentsCalls(srv, w, pid, iid, i.comments, i.creatorId);
    var wc := PostComments(srv, w, pid, iid, i.comments, i.creatorId).1;
    PostAttachmentsCalls(srv, wc, pid, iid, i.attachments);
  }

  /**
    When the comments all went through, exactly one "close" update is sent, as the last
    request, if the status is not "Open", and none otherwise; the result is success either way.
  */
  lemma CompleteCloses(srv: Server, w: World, pid: int, iid: int, i: Issue)
    requires Complete(srv, w, pid, iid, i).0.Pass?
    ensures var w1 := Complete(srv, w, pid, iid, i).1;
      && w.calls <= w1.calls
      && (forall k :: |w.calls| <= k < |w1.calls| && w1.calls[k].UpdateIssue? ==> k == |w1.calls| - 1 && i.status != "Open")
      && (i.status != "Open" ==> |w1.calls| > |w.calls| && w1.calls[|w1.calls| - 1] == UpdateIssue(pid, iid, "close"))
  {
    PostCommentsCalls(srv, w, pid, iid, i.comments, i.creatorId);
    var w1 := PostComments(srv, w, pid, iid, i.comments, i.creatorId).1;
    PostAttachmentsCalls(srv, w1, pid, iid, i.attachments);
  }

  /**
    A created issue whose comments all went through is closed with exactly one "close" update
    when its status is not "Open", and is not updated otherwise.
  */
  lemma CloseUnlessOpen(srv: Server, w: World, pid: int, i: Issue)
    requires !(srv.listIssues(|w.calls|).Ok? && |srv.listIssues(|w.calls|).value| != 0)
    requires CreateIssueSpec(srv, w, pid, i).outcome.Pass?
    ensures var w1 := CreateIssueSpec(srv, w, pid, i).world;
      && w.calls <= w1.calls
      && (forall k :: |w.calls| <= k < |w1.calls| && w1.calls[k].UpdateIssue? ==> k == |w1.calls| - 1 && i.status != "Open")
      && (i.status != "Open" ==> w1.calls[|w1.calls| - 1].UpdateIssue? && w1.calls[|w1.calls| - 1].stateEvent == "close")
  {
    var (o, i', w4) := Attempt(srv, Send(w, ListProjectIssues(pid, i.title)), pid, i);
    CompleteCloses(srv, w4, pid, o.value.iid, i');
  }

  /** Issue.Create only appends to the call log. */
  lemma CreateIssueExtends(srv: Server, w: World, pid: int, i: Issue)
    ensures w.calls <= CreateIssueSpec(srv, w, pid, i).world.calls
  {
    if !(srv.listIssues(|w.calls|).Ok? && |srv.listIssues(|w.calls|).value| != 0) {
      var (o, i', w4) := Attempt(srv, Send(w, ListProjectIssues(pid, i.title)), pid, i);
      if o.Ok? {
        PostCommentsCalls(srv, w4, pid, o.value.iid, i'.comments, i'.creatorId);
        var w5 := PostComments(srv, w4, pid, o.value.iid, i'.comments, i'.creatorId).1;
        PostAttachmentsCalls(srv, w5, pid, o.value.iid, i'.attachments);
      }
    }
  }

  /** The outcome of MigrateIssues: the s and e counters, and the issues dumped for inspection. */
  datatype Tally = Tally(migrated: nat, failed: nat, dumped: seq<Issue>, world: World)

  /** MigrateIssues: every issue in order; a failed issue is counted and dumped as rewritten. */
  function MigrateAll(srv: Server, w: World, pid: int, issues: seq<Issue>): (r: Tally)
    decreases |issues|
  {
    if issues == [] then Tally(0, 0, [], w)
    else
      var r0 := CreateIssueSpec(srv, w, pid, issues[0]);
      var rest := MigrateAll(srv, r0.world, pid, issues[1..]);
      if r0.outcome.Fail? then rest.(failed := rest.failed + 1, dumped := [r0.issue] + rest.dumped)
      else rest.(migrated := rest.migrated + 1)
  }

  /** The results of Issue.Create for each issue in turn, each starting where the previous ended. */
  function Runs(srv: Server, w: World, pid: int, issues: seq<Issue>): (r: seq<Replayed>)
    decreases |issues|
  {
    if issues == [] then []
    else
      var r0 := CreateIssueSpec(srv, w, pid, issues[0]);
      [r0] + Runs(srv, r0.world, pid, issues[1..])
  }

  /** The issues, as rewritten, of the failed results, in order. */
  function FailedOf(rs: seq<Replayed>): seq<Issue>
  {
    if rs == [] then [] else (if rs[0].outcome.Fail? then [rs[0].issue] else []) + FailedOf(rs[1..])
  }

  /**
    Every issue is counted exactly once, and the dumped issues are, in order, exactly those
    whose Issue.Create failed, each the issue it was given up to the creator rewrite.
  */
  lemma {:induction false} TallyCounts(srv: Server, w: World, pid: int, issues: seq<Issue>)
    ensures var t := MigrateAll(srv, w, pid, issues);
      var rs := Runs(srv, w, pid, issues);
      && t.migrated + t.failed == |issues| && |t.dumped| == t.failed
      && |rs| == |issues|
      && t.dumped == FailedOf(rs)
      && (forall k :: 0 <= k < |rs| ==> rs[k].issue.(creatorId := issues[k].creatorId) == issues[k])
    decreases |issues|
  {
    if issues != [] {
      var r0 := CreateIssueSpec(srv, w, pid, issues[0]);
      CreatorRewrite(srv, w, pid, issues[0]);
      TallyCounts(srv, r0.world, pid, issues[1..]);
      var rs := Runs(srv, w, pid, issues);
      forall k | 1 <= k < |rs|
        ensures rs[k].issue.(creatorId := issues[k].creatorId) == issues[k]
      {
        assert rs[k] == Runs(srv, r0.world, pid, issues[1..])[k - 1];
        assert issues[1..][k - 1] == issues[k];
      }
    }
  }

  /** Issues that all already exist by title: nothing but the title searches is sent. */
  predicate AllFound(srv: Server, n: nat, t: nat)
  {
    forall k :: t <= k < t + n ==> srv.listIssues(k).Ok? && |srv.listIssues(k).value| > 0
  }

  /**
    Re-running the migration once every title search hits sends only the searches and counts
    every issue as migrated.
  */
  lemma {:induction false} RerunSkipsAll(srv: Server, w: World, pid: int, issues: seq<Issue>)
    requires AllFound(srv, |issues|, |w.calls|)
    ensures var t := MigrateAll(srv, w, pid, issues);
      && t.migrated == |issues| && t.failed == 0 && t.world.cache == w.cache
      && t.world.calls == w.calls + seq(|issues|, k requires 0 <= k < |issues| => ListProjectIssues(pid, issues[k].title))
    decreases |issues|
  {
    if issues != [] {
      var w1 := Send(w, ListProjectIssues(pid, issues[0].title));
      SkipOnTitleHit(srv, w, pid, issues[0]);
      RerunSkipsAll(srv, w1, pid, issues[1..]);
      var tail := seq(|issues| - 1, k requires 0 <= k < |issues| - 1 => ListProjectIssues(pid, issues[1..][k].title));
      var all := seq(|issues|, k requires 0 <= k < |issues| => ListProjectIssues(pid, issues[k].title));
      assert all == [ListProjectIssues(pid, issues[0].title)] + tail;
    }
  }

  /** The retry loop of Issue.Create. */
  method CreateWithRetry(s: Session, pid: int, d: NewIssue, sudo: string) returns (r: Result<GIssue>)
    modifies s
    ensures (r, s.State()) == Attempts(s.server, old(s.State()), pid, d, sudo, 0)
  {
    var rc := 0;
    while true
      invariant rc % 2 == 0 && rc < Retry
      invariant Attempts(s.server, old(s.State()), pid, d, sudo, 0) == Attempts(s.server, s.State(), pid, d, sudo, rc)
      decreases Retry - rc
    {
      r := s.CreateIssue(pid, d, sudo);
      if r.Err? {
        rc := rc + 1;
        if rc == Retry {
          return;
        }
      } else {
        return;
      }
      rc := rc + 1;
    }
  }

  /** Issue.Create, after the issue exists: comments, attachments and the status. */
  method CompleteIssue(s: Session, pid: int, iid: int, i: Issue) returns (o: Outcome)
    modifies s
    ensures (o, s.State()) == Complete(s.server, old(s.State()), pid, iid, i)
  {
    for k := 0 to |i.comments|
      invariant PostComments(s.server, old(s.State()), pid, iid, i.comments, i.creatorId)
        == PostComments(s.server, s.State(), pid, iid, i.comments[k..], i.creatorId)
    {
      assert i.comments[k..][1..] == i.comments[k + 1..];
      var b := Markup.Translate(i.comments[k].body);
      var note := s.CreateIssueNote(pid, iid, b, Some(i.creatorId));
      if note.Fail? {
        return note;
      }
    }
    ghost var w1 := s.State();
    var k := 0;
    while k < |i.attachments|
      invariant 0 <= k <= |i.attachments|
      invariant PostAttachments(s.server, w1, pid, iid, i.attachments)
        == PostAttachments(s.server, s.State(), pid, iid, i.attachments[k..])
    {
      assert i.attachments[k..][1..] == i.attachments[k + 1..];
      var up := s.UploadFile(pid, i.attachments[k].fileName);
      if up.Err? {
        break;
      }
      var note := s.CreateIssueNote(pid, iid, up.value, None);
      if note.Fail? {
        break;
      }
      k := k + 1;
    }
    if i.status != "Open" {
      var _ := s.UpdateIssue(pid, iid, "close");
    }
    o := Pass;
  }

  /** Issue.Create: returns the outcome and the issue as rewritten. */
  method CreateOneIssue(s: Session, pid: int, i: Issue) returns (o: Outcome, i': Issue)
    modifies s
    ensures Replayed(o, i', s.State()) == CreateIssueSpec(s.server, old(s.State()), pid, i)
  {
    i' := i;
    var si := s.ListProjectIssues(pid, i.title);
    if si.Ok? && |si.value| != 0 {
      return Pass, i';
    }
    ghost var w1 := s.State();
    var au := s.UserGet(i.assignee);
    var assignees := AssigneeIds(au);
    var cu := s.UserGet(i.creatorId);
    if cu.None? {
      i' := i'.(creatorId := FallbackCreator);
    }
    assert Prepared(assignees, i', s.State()) == Prepare(s.server, w1, i);
    var created := CreateWithRetry(s, pid, Draft(i', assignees), i'.creatorId);
    assert (created, i', s.State()) == Attempt(s.server, w1, pid, i);
    if created.Err? {
      return Fail(created.error), i';
    }
    o := CompleteIssue(s, pid, created.value.iid, i');
  }
}
