/**
  The project being migrated and the steps that drive the migration (fetchProject,
  PopulateUsers, MigrateProject, getPID, MigrateIssues).
*/
module Driver {
  import opened Common
  import opened Jira
  import opened Snapshot
  import opened Gitlab
  import Provision
  import Replay

  /** The visibility of a project the migration creates. */
  const Visibility := "public"

  /** How MigrateProject ends: after MigrateIssues with its counters and dumps, or by an exit. */
  datatype Ending = Finished(migrated: nat, failed: nat, dumped: seq<Issue>) | Halted(halt: Halt)

  /**
    The project id getPID keeps: the id of the last listed project with exactly this name, or
    the current id when none has it.
  */
  function LastMatch(pl: seq<GProject>, name: string, pid: int): (r: int)
    ensures (forall k :: 0 <= k < |pl| ==> pl[k].name != name) ==> r == pid
    ensures (exists k :: 0 <= k < |pl| && pl[k].name == name) ==>
      exists k :: 0 <= k < |pl| && pl[k].name == name && r == pl[k].id
        && forall j :: k < j < |pl| ==> pl[j].name != name
  {
    if pl == [] then pid
    else if pl[|pl| - 1].name == name then pl[|pl| - 1].id
    else
      var r := LastMatch(pl[..|pl| - 1], name, pid);
      assert forall k :: 0 <= k < |pl| - 1 ==> pl[..|pl| - 1][k] == pl[k];
      r
  }

  /** getPID: list all projects; a listing error exits with status 1. */
  function PidSpec(srv: Server, w: World, name: string, pid: int): (r: (Option<Halt>, int, World))
    ensures r.2 == Send(w, ListProjects(None))
    ensures r.0.Some? <==> srv.listProjects(|w.calls|).Err?
    ensures r.0.Some? ==> r.0.value == Exit(1) && r.1 == pid
    ensures r.0.None? ==> r.1 == LastMatch(srv.listProjects(|w.calls|).value, name, pid)
  {
    var w1 := Send(w, ListProjects(None));
    match srv.listProjects(|w.calls|)
    case Err(_) => (Some(Exit(1)), pid, w1)
    case Ok(pl) => (None, LastMatch(pl, name, pid), w1)
  }

  /**
    MigrateProject: search the project by name (an error counts as no result), create it when
    none is found (exit 99 on failure), exit 1 when several are found, look up its id, provision
    the users (exit 2 on failure), then migrate the issues.
  */
  function MigrateProjectSpec(srv: Server, w: World, name: string, pid: int, users: seq<User>, issues: seq<Issue>)
    : (r: (Ending, int, World))
  {
    var found := srv.listProjects(|w.calls|);
    var w1 := Send(w, ListProjects(Some(name)));
    var pl := if found.Ok? then found.value else [];
    var w2 := AfterSearch(srv, w, name);
    if |pl| == 0 && srv.createProject(|w1.calls|).Fail? then (Halted(Exit(99)), pid, w2)
    else if |pl| > 1 then (Halted(Exit(1)), pid, w2)
    else
      var (h, pid', w3) := PidSpec(srv, w2, name, pid);
      if h.Some? then (Halted(h.value), pid', w3)
      else
        var (uo, w4) := Provision.CreateAll(srv, w3, users, pid');
        if uo.Fail? then (Halted(Exit(2)), pid', w4)
        else
          var t := Replay.MigrateAll(srv, w4, pid', issues);
          (Finished(t.migrated, t.failed, t.dumped), pid', t.world)
  }

  /**
    The ways MigrateProject ends: exit 99 only when no project was found and creating it
    failed; exit 1 when several were found or the project list failed; exit 2 when provisioning
    the users failed; otherwise every issue is counted once as migrated or failed.
  */
  lemma MigrateProjectEndings(srv: Server, w: World, name: string, pid: int, users: seq<User>, issues: seq<Issue>)
    ensures var (e, _, w1) := MigrateProjectSpec(srv, w, name, pid, users, issues);
      var found := srv.listProjects(|w.calls|);
      var none := found.Err? || |found.value| == 0;
      && |w1.calls| > |w.calls| && w1.calls[|w.calls|] == ListProjects(Some(name))
      && (e == Halted(Exit(99)) <==> none && srv.createProject(|w.calls| + 1).Fail?)
      && (found.Ok? && |found.value| > 1 ==> e == Halted(Exit(1)) && w1 == Send(w, ListProjects(Some(name))))
      && (e.Halted? ==> e.halt.Exit? && e.halt.code in {1, 2, 99})
      && (e.Finished? ==> e.migrated + e.failed == |issues| && |e.dumped| == e.failed)
  {
    var found := srv.listProjects(|w.calls|);
    var w1 := Send(w, ListProjects(Some(name)));
    var pl := if found.Ok? then found.value else [];
    var w2 := if |pl| == 0 then Send(w1, CreateProject(name, Visibility)) else w1;
    assert w1.calls[|w.calls|] == ListProjects(Some(name));
    assert w2.calls[|w.calls|] == ListProjects(Some(name));
    if !(|pl| == 0 && srv.createProject(|w1.calls|).Fail?) && |pl| <= 1 {
      var (h, p, w3) := PidSpec(srv, w2, name, pid);
      assert w3.calls[|w.calls|] == ListProjects(Some(name));
      if h.None? {
        var (uo, w4) := Provision.CreateAll(srv, w3, users, p);
        Provision.CreateAllAccounts(srv, w3, users, p);
        assert w4.calls[|w.calls|] == ListProjects(Some(name));
        if uo.Pass? {
          Replay.TallyCounts(srv, w4, p, issues);
          MigrateAllExtends(srv, w4, p, issues);
        }
      }
    }
  }

  /**
    What decides each ending of MigrateProject.  The project is created exactly when the name
    search failed or found nothing.  Exit 1 comes from several projects found or a failed project
    listing; exit 2 exactly when the project exists, the listing succeeded and provisioning the
    users failed; otherwise the issues are migrated.
  */
  lemma MigrateProjectExits(srv: Server, w: World, name: string, pid: int, users: seq<User>, issues: seq<Issue>)
    ensures var (e, _, w5) := MigrateProjectSpec(srv, w, name, pid, users, issues);
      var found := srv.listProjects(|w.calls|);
      var none := found.Err? || |found.value| == 0;
      var many := found.Ok? && |found.value| > 1;
      var created := !none || srv.createProject(|w.calls| + 1).Pass?;
      var t := if none then |w.calls| + 2 else |w.calls| + 1;
      var listing := srv.listProjects(t);
      var provisioned := listing.Ok? &&
        Provision.CreateAll(srv, Send(AfterSearch(srv, w, name), ListProjects(None)), users,
                            LastMatch(listing.value, name, pid)).0.Pass?;
      && (none <==> |w5.calls| > |w.calls| + 1 && w5.calls[|w.calls| + 1] == CreateProject(name, Visibility))
      && (e == Halted(Exit(1)) <==> created && (many || listing.Err?))
      && (e == Halted(Exit(2)) <==> created && !many && listing.Ok? && !provisioned)
      && (e.Finished? <==> created && !many && provisioned)
  {
    var found := srv.listProjects(|w.calls|);
    var none := found.Err? || |found.value| == 0;
    var w2 := AfterSearch(srv, w, name);
    if !(none && srv.createProject(|w.calls| + 1).Fail?) && !(found.Ok? && |found.value| > 1) {
      var (h, p, w3) := PidSpec(srv, w2, name, pid);
      assert |w3.calls| > |w.calls| + 1;
      assert w3.calls[|w.calls| + 1] == if none then CreateProject(name, Visibility) else ListProjects(None);
      if h.None? {
        var (uo, w4) := Provision.CreateAll(srv, w3, users, p);
        Provision.CreateAllAccounts(srv, w3, users, p);
        assert w4.calls[|w.calls| + 1] == w3.calls[|w.calls| + 1];
        if uo.Pass? {
          MigrateAllExtends(srv, w4, p, issues);
          assert Replay.MigrateAll(srv, w4, p, issues).world.calls[|w.calls| + 1] == w3.calls[|w.calls| + 1];
        }
      }
    } else if none {
      assert w2.calls[|w.calls| + 1] == CreateProject(name, Visibility);
    }
  }

  /** The GitLab state of MigrateProject once the project was searched, and created when none was found. */
  function AfterSearch(srv: Server, w: World, name: string): (r: World)
    ensures var found := srv.listProjects(|w.calls|);
      && (found.Err? || |found.value| == 0 ==> r.calls == w.calls + [ListProjects(Some(name)), CreateProject(name, Visibility)])
      && (found.Ok? && |found.value| != 0 ==> r.calls == w.calls + [ListProjects(Some(name))])
  {
    var found := srv.listProjects(|w.calls|);
    var w1 := Send(w, ListProjects(Some(name)));
    var pl := if found.Ok? then found.value else [];
    if |pl| == 0 then Send(w1, CreateProject(name, Visibility)) else w1
  }

  /** One iteration of MigrateIssues: the tally of issues k.. from the tally of issues k + 1.. */
  lemma MigrateAllStep(srv: Server, w: World, pid: int, issues: seq<Issue>, k: nat)
    requires k < |issues|
    ensures var r0 := Replay.CreateIssueSpec(srv, w, pid, issues[k]);
      var rest := Replay.MigrateAll(srv, r0.world, pid, issues[k + 1..]);
      var t := Replay.MigrateAll(srv, w, pid, issues[k..]);
      && t.world == rest.world
      && t.migrated == rest.migrated + (if r0.outcome.Fail? then 0 else 1)
      && t.failed == rest.failed + (if r0.outcome.Fail? then 1 else 0)
      && t.dumped == (if r0.outcome.Fail? then [r0.issue] else []) + rest.dumped
  {
    assert issues[k..][1..] == issues[k + 1..];
  }

  /** MigrateIssues only appends to the call log. */
  lemma {:induction false} MigrateAllExtends(srv: Server, w: World, pid: int, issues: seq<Issue>)
    ensures w.calls <= Replay.MigrateAll(srv, w, pid, issues).world.calls
    decreases |issues|
  {
    if issues != [] {
      var r0 := Replay.CreateIssueSpec(srv, w, pid, issues[0]);
      Replay.CreateIssueExtends(srv, w, pid, issues[0]);
      MigrateAllExtends(srv, r0.world, pid, issues[1..]);
    }
  }

  /** The project being migrated. */
  class Project {
    var pid: int
    var name: string
    var issues: seq<Issue>
    var users: seq<User>

    constructor (name: string)
      ensures this.name == name && pid == 0 && issues == [] && users == []
    {
      this.name := name;
      pid := 0;
      issues := [];
      users := [];
    }

    /** One visit of PopulateUsers: look `id` up in Jira unless a user already has that username. */
    method AddCreator(site: Site, id: string)
      modifies this
      ensures users == Visit(site, old(users), id)
      ensures pid == old(pid) && name == old(name) && issues == old(issues)
    {
      var known := ContainsUser(users, id);
      if !known {
        var u := JiraGetUser(site, id);
        if u.Ok? {
          users := users + [u.value];
        }
      }
    }

    /** The visits of PopulateUsers for the authors `ids`, in order. */
    method AddCreators(site: Site, ids: seq<string>)
      modifies this
      ensures users == Collect(site, old(users), ids)
      ensures pid == old(pid) && name == old(name) && issues == old(issues)
    {
      for j := 0 to |ids|
        invariant pid == old(pid) && name == old(name) && issues == old(issues)
        invariant users == Collect(site, old(users), ids[..j])
      {
        AddCreator(site, ids[j]);
        assert ids[..j + 1][..j] == ids[..j];
      }
      assert ids[..|ids|] == ids;
    }

    /**
      PopulateUsers: visit each issue's creator, then its comment authors, then its attachment
      authors.
    */
    method PopulateUsers(site: Site)
      modifies this
      ensures users == Collect(site, [], AllCreators(issues))
      ensures pid == old(pid) && name == old(name) && issues == old(issues)
    {
      users := [];
      for k := 0 to |issues|
        invariant pid == old(pid) && name == old(name) && issues == old(issues)
        invariant users == Collect(site, [], AllCreators(issues[..k]))
      {
        var i := issues[k];
        CollectIssue(site, AllCreators(issues[..k]), i);
        AllCreatorsSnoc(issues, k);
        AddCreator(site, i.creatorId);
        AddCreators(site, CommentAuthors(i.comments));
        AddCreators(site, AttachmentAuthors(i.attachments));
      }
      assert issues[..|issues|] == issues;
    }

    /** getPID */
    method GetPID(s: Session) returns (h: Option<Halt>)
      modifies this, s
      ensures (h, pid, s.State()) == PidSpec(s.server, old(s.State()), name, old(pid))
      ensures name == old(name) && issues == old(issues) && users == old(users)
    {
      ghost var w := s.State();
      var pl := s.ListProjects(None);
      assert pl == s.server.listProjects(|w.calls|);
      if pl.Err? {
        assert PidSpec(s.server, w, name, pid).0 == Some(Exit(1));
        return Some(Exit(1));
      }
      for k := 0 to |pl.value|
        invariant s.State() == Send(w, ListProjects(None))
        invariant pid == LastMatch(pl.value[..k], name, old(pid))
        invariant name == old(name) && issues == old(issues) && users == old(users)
      {
        assert pl.value[..k + 1][..k] == pl.value[..k];
        if pl.value[k].name == name {
          pid := pl.value[k].id;
        }
      }
      assert pl.value[..|pl.value|] == pl.value;
      assert PidSpec(s.server, w, name, old(pid)).1 == pid;
      h := None;
    }

    /** MigrateIssues: the s and e counters and the issues dumped for inspection. */
    method MigrateIssues(s: Session) returns (migrated: nat, failed: nat, dumped: seq<Issue>)
      modifies s
      ensures var t := Replay.MigrateAll(s.server, old(s.State()), pid, issues);
        migrated == t.migrated && failed == t.failed && dumped == t.dumped && s.State() == t.world
    {
      migrated, failed, dumped := 0, 0, [];
      ghost var t := Replay.MigrateAll(s.server, s.State(), pid, issues);
      for k := 0 to |issues|
        invariant var rest := Replay.MigrateAll(s.server, s.State(), pid, issues[k..]);
          && t.migrated == migrated + rest.migrated
          && t.failed == failed + rest.failed
          && t.dumped == dumped + rest.dumped
          && t.world == rest.world
      {
        ghost var w := s.State();
        var o, i' := Replay.CreateOneIssue(s, pid, issues[k]);
        MigrateAllStep(s.server, w, pid, issues, k);
        if o.Fail? {
          failed := failed + 1;
          dumped := dumped + [i'];
        } else {
          migrated := migrated + 1;
        }
      }
    }

    /** MigrateProject */
    method MigrateProject(s: Session) returns (e: Ending)
      modifies this, s
      ensures (e, pid, s.State()) == MigrateProjectSpec(s.server, old(s.State()), name, old(pid), users, issues)
      ensures name == old(name) && issues == old(issues) && users == old(users)
    {
      var pl := s.ListProjects(Some(name));
      var found := if pl.Ok? then pl.value else [];
      if |found| == 0 {
        var created := s.CreateProject(name, Visibility);
        if created.Fail? {
          return Halted(Exit(99));
        }
      }
      if |found| > 1 {
        return Halted(Exit(1));
      }
      var h := GetPID(s);
      if h.Some? {
        return Halted(h.value);
      }
      var uo := Provision.ProvisionUsers(s, users, pid);
      if uo.Fail? {
        return Halted(Exit(2));
      }
      var migrated, failed, dumped := MigrateIssues(s);
      e := Finished(migrated, failed, dumped);
    }
  }

  /** The ids visited for the first k + 1 issues. */
  lemma AllCreatorsSnoc(issues: seq<Issue>, k: nat)
    requires k < |issues|
    ensures AllCreators(issues[..k + 1]) == AllCreators(issues[..k]) + CreatorsOf(issues[k])
  {
    assert issues[..k + 1][..k] == issues[..k];
  }

  /** The visits for one issue: its creator, then its comment authors, then its attachment authors. */
  lemma CollectIssue(site: Site, seen: seq<string>, i: Issue)
    ensures Collect(site, [], seen + CreatorsOf(i))
      == Collect(site, Collect(site, Visit(site, Collect(site, [], seen), i.creatorId), CommentAuthors(i.comments)),
                 AttachmentAuthors(i.attachments))
  {
    var c := [i.creatorId];
    var ca := CommentAuthors(i.comments);
    var aa := AttachmentAuthors(i.attachments);
    assert seen + CreatorsOf(i) == ((seen + c) + ca) + aa;
    CollectAppend(site, [], (seen + c) + ca, aa);
    CollectAppend(site, [], seen + c, ca);
    CollectAppend(site, [], seen, c);
    assert c[..0] == [];
  }

  /** Visiting `a` then `b` is visiting `a + b`. */
  lemma {:induction false} CollectAppend(site: Site, users: seq<User>, a: seq<string>, b: seq<string>)
    ensures Collect(site, users, a + b) == Collect(site, Collect(site, users, a), b)
  {
    if b == [] {
      assert a + b == a;
    } else {
      assert (a + b)[..|a + b| - 1] == a + b[..|b| - 1];
      CollectAppend(site, users, a, b[..|b| - 1]);
    }
  }

  /**
    fetchProject: search every page (exit 2 on a search error), build each issue (a failed
    detail fetch panics), then collect the users.  It exits with status 2 exactly when one of
    the pages it must request fails, and panics exactly when the search succeeded and some
    listed issue's detail fetch failed.
  */
  method FetchProject(site: Site, disk: Disk, name: string) returns (h: Option<Halt>, p: Project)
    ensures fresh(p) && p.name == name && p.pid == 0
    ensures h == Some(Exit(2)) || h == Some(Panic) || h.None?
    ensures h.None? ==>
      && |p.issues| == |site.issues|
      && (forall k :: 0 <= k < |site.issues| ==> site.get(site.issues[k].id).Ok? && p.issues[k] == Snapshotted(site, disk, site.issues[k]))
      && p.users == Collect(site, [], AllCreators(p.issues))
    ensures h == Some(Exit(2)) <==> exists k :: 0 <= k <= |site.issues| / PageSize && site.searchFails(k * PageSize)
    ensures h == Some(Panic) <==>
      && (forall k :: 0 <= k <= |site.issues| / PageSize ==> !site.searchFails(k * PageSize))
      && (exists k :: 0 <= k < |site.issues| && site.get(site.issues[k].id).Err?)
  {
    p := new Project(name);
    var listed, requested := SearchAll(site);
    if listed.Err? {
      return Some(Exit(2)), p;
    }
    var built := BuildIssues(site, disk, listed.value);
    if built.Err? {
      return Some(Panic), p;
    }
    p.issues := built.value;
    p.PopulateUsers(site);
    h := None;
  }
}
