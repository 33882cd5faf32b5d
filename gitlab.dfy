/**
  The GitLab instance as the migration writes to it.  Every GitLab request the engine sends is
  recorded, in order, in a call log; the reply to a request is a function of its position in
  that log (the run is deterministic, so the position determines the request, and a retried
  request may get a different reply).  The package-level user map of project.go is the `cache`.
*/
module Gitlab {
  import opened Common

  datatype GUser = GUser(id: int, username: string)

  datatype GProject = GProject(id: int, name: string)

  datatype GIssue = GIssue(iid: int, title: string)

  /** The CreateUserOptions sent for a missing user. */
  datatype NewUser = NewUser(email: string, username: string, name: string, password: string, admin: bool)

  /** The CreateIssueOptions sent for an issue. */
  datatype NewIssue = NewIssue(
    title: string,
    description: string,
    assigneeIds: seq<int>,
    labels: seq<string>,
    createdAt: int)

  /** The HTTP status and error of an AddProjectMember request. */
  datatype MemberReply = MemberReply(status: int, error: Option<string>)

  /** One request to the GitLab API, with the arguments the engine passes. */
  datatype Call =
    | ListProjects(projectSearch: Option<string>)
    | CreateProject(name: string, visibility: string)
    | ListUsers(search: string)
    | CreateUser(user: NewUser)
    | AddProjectMember(pid: int, uid: int, access: int)
    | ListProjectIssues(pid: int, search: string)
    | CreateIssue(pid: int, issue: NewIssue, sudo: string)
    | CreateIssueNote(pid: int, iid: int, body: string, noteSudo: Option<string>)
    | UploadFile(pid: int, file: string)
    | UpdateIssue(pid: int, iid: int, stateEvent: string)

  /** The replies of the GitLab instance, per endpoint, indexed by the position of the request. */
  datatype Server = Server(
    listProjects: nat -> Result<seq<GProject>>,
    createProject: nat -> Outcome,
    listUsers: nat -> Result<seq<GUser>>,
    createUser: nat -> Result<GUser>,
    addMember: nat -> MemberReply,
    listIssues: nat -> Result<seq<GIssue>>,
    createIssue: nat -> Result<GIssue>,
    createNote: nat -> Outcome,
    uploadFile: nat -> Result<string>,     // the Markdown link of the uploaded file
    updateIssue: nat -> Outcome)

  /** What the run has done to GitLab so far, and the user cache it has built. */
  datatype World = World(calls: seq<Call>, cache: map<string, GUser>)

  /** Records one more request. */
  function Send(w: World, c: Call): (r: World)
    ensures r.calls == w.calls + [c] && r.cache == w.cache
  {
    w.(calls := w.calls + [c])
  }

  /** Every cached user is stored under its own username. */
  ghost predicate CacheCoherent(cache: map<string, GUser>)
  {
    forall k :: k in cache ==> cache[k].username == k
  }

  /**
    gitlabUserGet: a cached name answers without a request; otherwise the users are searched
    for `us`, and only a search with exactly one result yields a user, which is then cached
    under the username it carries.
  */
  function Lookup(srv: Server, w: World, us: string): (r: (Option<GUser>, World))
    ensures us in w.cache ==> r == (Some(w.cache[us]), w)
    ensures us !in w.cache ==> r.1.calls == w.calls + [ListUsers(us)]
    ensures us !in w.cache ==>
      (r.0.Some? <==> srv.listUsers(|w.calls|).Ok? && |srv.listUsers(|w.calls|).value| == 1)
    ensures us !in w.cache && r.0.Some? ==>
      r.0.value == srv.listUsers(|w.calls|).value[0] && r.1.cache == w.cache[r.0.value.username := r.0.value]
    ensures r.0.None? ==> r.1.cache == w.cache
  {
    if us in w.cache then (Some(w.cache[us]), w)
    else
      var w1 := Send(w, ListUsers(us));
      match srv.listUsers(|w.calls|)
      case Err(_) => (None, w1)
      case Ok(ul) =>
        if |ul| != 1 then (None, w1)
        else (Some(ul[0]), w1.(cache := w1.cache[ul[0].username := ul[0]]))
  }

  /** Looking up keeps the cache coherent, and every entry other than the returned user's. */
  lemma LookupKeepsCache(srv: Server, w: World, us: string)
    requires CacheCoherent(w.cache)
    ensures var (u, w1) := Lookup(srv, w, us);
      && CacheCoherent(w1.cache)
      && w.calls <= w1.calls
      && (forall k :: k in w.cache && (u.None? || k != u.value.username) ==> k in w1.cache && w1.cache[k] == w.cache[k])
      && (u.Some? ==> u.value.username in w1.cache && w1.cache[u.value.username] == u.value)
  {
  }

  /** A user found under its own username is answered from the cache the next time. */
  lemma LookupRepeat(srv: Server, w: World, us: string)
    requires CacheCoherent(w.cache)
    requires Lookup(srv, w, us).0.Some? && Lookup(srv, w, us).0.value.username == us
    ensures var (u, w1) := Lookup(srv, w, us);
      Lookup(srv, w1, us) == (u, w1)
  {
  }

  /**
    A search that matched a user with a different username (GitLab's search is fuzzy) does not
    make `us` a cached name: the next lookup of `us` searches again.
  */
  lemma LookupFuzzyMiss(srv: Server, w: World, us: string)
    requires us !in w.cache
    requires Lookup(srv, w, us).0.Some? && Lookup(srv, w, us).0.value.username != us
    ensures var w1 := Lookup(srv, w, us).1;
      Lookup(srv, w1, us).1.calls == w1.calls + [ListUsers(us)]
  {
  }

  /** The GitLab client of a run, together with the run's user cache. */
  class Session {
    const server: Server
    var calls: seq<Call>
    var cache: map<string, GUser>

    function State(): World
      reads this
    {
      World(calls, cache)
    }

    constructor (server: Server)
      ensures this.server == server && State() == World([], map[])
    {
      this.server := server;
      calls := [];
      cache := map[];
    }

    /** Sends `c` and records it. */
    method Log(c: Call)
      modifies this
      ensures State() == Send(old(State()), c)
    {
      calls := calls + [c];
    }

    method ListProjects(search: Option<string>) returns (r: Result<seq<GProject>>)
      modifies this
      ensures r == server.listProjects(|old(calls)|) && State() == Send(old(State()), Call.ListProjects(search))
    {
      r := server.listProjects(|calls|);
      Log(Call.ListProjects(search));
    }

    method CreateProject(name: string, visibility: string) returns (r: Outcome)
      modifies this
      ensures r == server.createProject(|old(calls)|) && State() == Send(old(State()), Call.CreateProject(name, visibility))
    {
      r := server.createProject(|calls|);
      Log(Call.CreateProject(name, visibility));
    }

    method ListUsers(search: string) returns (r: Result<seq<GUser>>)
      modifies this
      ensures r == server.listUsers(|old(calls)|) && State() == Send(old(State()), Call.ListUsers(search))
    {
      r := server.listUsers(|calls|);
      Log(Call.ListUsers(search));
    }

    method CreateUser(user: NewUser) returns (r: Result<GUser>)
      modifies this
      ensures r == server.createUser(|old(calls)|) && State() == Send(old(State()), Call.CreateUser(user))
    {
      r := server.createUser(|calls|);
      Log(Call.CreateUser(user));
    }

    method AddProjectMember(pid: int, uid: int, access: int) returns (r: MemberReply)
      modifies this
      ensures r == server.addMember(|old(calls)|) && State() == Send(old(State()), Call.AddProjectMember(pid, uid, access))
    {
      r := server.addMember(|calls|);
      Log(Call.AddProjectMember(pid, uid, access));
    }

    method ListProjectIssues(pid: int, search: string) returns (r: Result<seq<GIssue>>)
      modifies this
      ensures r == server.listIssues(|old(calls)|) && State() == Send(old(State()), Call.ListProjectIssues(pid, search))
    {
      r := server.listIssues(|calls|);
      Log(Call.ListProjectIssues(pid, search));
    }

    method CreateIssue(pid: int, issue: NewIssue, sudo: string) returns (r: Result<GIssue>)
      modifies this
      ensures r == server.createIssue(|old(calls)|) && State() == Send(old(State()), Call.CreateIssue(pid, issue, sudo))
    {
      r := server.createIssue(|calls|);
      Log(Call.CreateIssue(pid, issue, sudo));
    }

    method CreateIssueNote(pid: int, iid: int, body: string, sudo: Option<string>) returns (r: Outcome)
      modifies this
      ensures r == server.createNote(|old(calls)|) && State() == Send(old(State()), Call.CreateIssueNote(pid, iid, body, sudo))
    {
      r := server.createNote(|calls|);
      Log(Call.CreateIssueNote(pid, iid, body, sudo));
    }

    method UploadFile(pid: int, file: string) returns (r: Result<string>)
      modifies this
      ensures r == server.uploadFile(|old(calls)|) && State() == Send(old(State()), Call.UploadFile(pid, file))
    {
      r := server.uploadFile(|calls|);
      Log(Call.UploadFile(pid, file));
    }

    method UpdateIssue(pid: int, iid: int, stateEvent: string) returns (r: Outcome)
      modifies this
      ensures r == server.updateIssue(|old(calls)|) && State() == Send(old(State()), Call.UpdateIssue(pid, iid, stateEvent))
    {
      r := server.updateIssue(|calls|);
      Log(Call.UpdateIssue(pid, iid, stateEvent));
    }

    /** gitlabUserGet */
    method UserGet(us: string) returns (u: Option<GUser>)
      modifies this
      ensures (u, State()) == Lookup(server, old(State()), us)
    {
      if us in cache {
        return Some(cache[us]);
      }
      var ul := ListUsers(us);
      if ul.Err? {
        return None;
      }
      if |ul.value| > 1 {
        return None;
      }
      if |ul.value| < 1 {
        return None;
      }
      cache := cache[ul.value[0].username := ul.value[0]];
      u := Some(ul.value[0]);
    }
  }
}
