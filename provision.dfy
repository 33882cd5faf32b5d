/**
  Provisioning the project's users in GitLab (Users.Create, User.Create,
  gitlabAddUserToProjectAsMaster): each user is looked up, created when missing, and added to
  the project with Maintainer ("Master") access.
*/
module Provision {
  import opened Common
  import opened Gitlab
  import Snapshot

  /** The password every created user gets. */
  const TmpPassword := "dummy12345"

  /** GitLab's Master (Maintainer) access level. */
  const MasterAccess := 40

  /** The HTTP status GitLab answers when the user already is a member. */
  const Conflict := 409

  /** Usernames Users.Create passes over. */
  predicate Exempt(username: string)
  {
    username == "admin" || username == "root"
  }

  /** The account requested for a user missing from GitLab. */
  function Account(u: Snapshot.User): NewUser
  {
    NewUser(u.email, u.username, u.name, TmpPassword, true)
  }

  /**
    gitlabAddUserToProjectAsMaster: a 409 answer counts as success whatever the error; any
    other error becomes "unable to add user to project".
  */
  function AddMember(srv: Server, w: World, uid: int, pid: int): (r: (Outcome, World))
    ensures r.1 == Send(w, AddProjectMember(pid, uid, MasterAccess))
    ensures r.0.Fail? <==> srv.addMember(|w.calls|).status != Conflict && srv.addMember(|w.calls|).error.Some?
    ensures r.0.Fail? ==> r.0.error == "unable to add user to project"
  {
    var rep := srv.addMember(|w.calls|);
    var w1 := Send(w, AddProjectMember(pid, uid, MasterAccess));
    if rep.status == Conflict then (Pass, w1)
    else if rep.error.Some? then (Fail("unable to add user to project"), w1)
    else (Pass, w1)
  }

  /**
    User.Create: nothing for an empty username; otherwise look the user up, create the account
    when the lookup finds none (a creation error is returned), and add it to the project.
  */
  function CreateOne(srv: Server, w: World, u: Snapshot.User, pid: int): (r: (Outcome, World))
  {
    if u.username == "" then (Pass, w)
    else
      var (cu, w1) := Lookup(srv, w, u.username);
      if cu.None? then
        var w2 := Send(w1, CreateUser(Account(u)));
        match srv.createUser(|w1.calls|)
        case Err(e) => (Fail(e), w2)
        case Ok(g) => AddMember(srv, w2, g.id, pid)
      else AddMember(srv, w1, cu.value.id, pid)
  }

  /** Users.Create: every user except admin and root, in order, stopping at the first error. */
  function CreateAll(srv: Server, w: World, users: seq<Snapshot.User>, pid: int): (r: (Outcome, World))
    decreases |users|
  {
    if users == [] then (Pass, w)
    else if Exempt(users[0].username) then CreateAll(srv, w, users[1..], pid)
    else
      var (o, w1) := CreateOne(srv, w, users[0], pid);
      if o.Fail? then (o, w1) else CreateAll(srv, w1, users[1..], pid)
  }

  /** The requests provisioning user `u` may send. */
  predicate ForUser(c: Call, u: Snapshot.User, pid: int)
  {
    || c == ListUsers(u.username)
    || c == CreateUser(Account(u))
    || (c.AddProjectMember? && c.pid == pid && c.access == MasterAccess)
  }

  /**
    User.Create sends only requests about `u`: at most one search, at most one account creation
    (with the temporary password and admin rights) and at most one membership request; an empty
    username sends nothing.
  */
  lemma CreateOneCalls(srv: Server, w: World, u: Snapshot.User, pid: int)
    ensures var (o, w1) := CreateOne(srv, w, u, pid);
      && w.calls <= w1.calls
      && |w1.calls| <= |w.calls| + 3
      && (u.username == "" ==> o == Pass && w1 == w)
      && (forall k :: |w.calls| <= k < |w1.calls| ==> ForUser(w1.calls[k], u, pid))
  {
  }

  /**
    User.Create of a named user, after its lookup: a user GitLab does not have is created with
    `Account(u)`, and a creation error is returned with nothing more sent; the membership request
    then carries the created account's id, or the id of the user the lookup found.
  */
  lemma CreateOneRequests(srv: Server, w: World, u: Snapshot.User, pid: int)
    requires u.username != ""
    ensures var (cu, w1) := Lookup(srv, w, u.username);
      var (o, w2) := CreateOne(srv, w, u, pid);
      var t := |w1.calls|;
      && (cu.None? && srv.createUser(t).Err? ==>
            o == Fail(srv.createUser(t).error) && w2.calls == w1.calls + [CreateUser(Account(u))])
      && (cu.None? && srv.createUser(t).Ok? ==>
            && w2.calls == w1.calls + [CreateUser(Account(u)), AddProjectMember(pid, srv.createUser(t).value.id, MasterAccess)]
            && o == AddMember(srv, Send(w1, CreateUser(Account(u))), srv.createUser(t).value.id, pid).0)
      && (cu.Some? ==>
            && w2.calls == w1.calls + [AddProjectMember(pid, cu.value.id, MasterAccess)]
            && o == AddMember(srv, w1, cu.value.id, pid).0)
      && w2.cache == w1.cache
  {
  }

  /** A successful User.Create of a named user ends with exactly one membership request. */
  lemma CreateOneMember(srv: Server, w: World, u: Snapshot.User, pid: int)
    requires u.username != "" && CreateOne(srv, w, u, pid).0 == Pass
    ensures var w1 := CreateOne(srv, w, u, pid).1;
      && |w1.calls| > |w.calls|
      && w1.calls[|w1.calls| - 1].AddProjectMember?
      && (forall k :: |w.calls| <= k < |w1.calls| - 1 ==> !w1.calls[k].AddProjectMember?)
  {
  }

  /**
    Users.Create failed at user `j`: a user it does not skip, reached after the users before it
    all went through, whose User.Create error and requests end the run.
  */
  predicate FailsAt(srv: Server, w: World, users: seq<Snapshot.User>, pid: int, j: nat)
    requires j < |users|
  {
    var (o0, w0) := CreateAll(srv, w, users[..j], pid);
    && !Exempt(users[j].username)
    && o0 == Pass
    && CreateOne(srv, w0, users[j], pid).0.Fail?
    && CreateOne(srv, w0, users[j], pid) == CreateAll(srv, w, users, pid)
  }

  /**
    A failed Users.Create stopped at the first failing User.Create and returned its error: no
    request is sent for the users after it.
  */
  lemma {:induction false} CreateAllFirstError(srv: Server, w: World, users: seq<Snapshot.User>, pid: int)
    requires CreateAll(srv, w, users, pid).0.Fail?
    ensures exists j :: 0 <= j < |users| && FailsAt(srv, w, users, pid, j)
    decreases |users|
  {
    assert users != [];
    if Exempt(users[0].username) {
      CreateAllFirstError(srv, w, users[1..], pid);
      var j :| 0 <= j < |users[1..]| && FailsAt(srv, w, users[1..], pid, j);
      assert users[..j + 1][1..] == users[1..][..j];
      assert users[1..][j] == users[j + 1];
      assert FailsAt(srv, w, users, pid, j + 1);
    } else {
      var (o, w1) := CreateOne(srv, w, users[0], pid);
      if o.Fail? {
        assert users[..0] == [];
        assert FailsAt(srv, w, users, pid, 0);
      } else {
        CreateAllFirstError(srv, w1, users[1..], pid);
        var j :| 0 <= j < |users[1..]| && FailsAt(srv, w1, users[1..], pid, j);
        assert users[..j + 1][1..] == users[1..][..j];
        assert users[1..][j] == users[j + 1];
        assert FailsAt(srv, w, users, pid, j + 1);
      }
    }
  }

  /** The number of membership requests in a call log. */
  function Memberships(cs: seq<Call>): nat
  {
    if cs == [] then 0
    else Memberships(cs[..|cs| - 1]) + (if cs[|cs| - 1].AddProjectMember? then 1 else 0)
  }

  lemma {:induction false} MembershipsAppend(a: seq<Call>, b: seq<Call>)
    ensures Memberships(a + b) == Memberships(a) + Memberships(b)
  {
    if b != [] {
      assert (a + b)[..|a + b| - 1] == a + b[..|b| - 1];
      MembershipsAppend(a, b[..|b| - 1]);
    } else {
      assert a + b == a;
    }
  }

  /** The users Users.Create provisions: named and neither admin nor root. */
  function Provisioned(users: seq<Snapshot.User>): nat
  {
    if users == [] then 0
    else (if users[0].username == "" || Exempt(users[0].username) then 0 else 1) + Provisioned(users[1..])
  }

  /** Users.Create passes over admin, root and unnamed users entirely. */
  lemma {:induction false} CreateAllSkips(srv: Server, w: World, users: seq<Snapshot.User>, pid: int)
    requires Provisioned(users) == 0
    ensures CreateAll(srv, w, users, pid) == (Pass, w)
    decreases |users|
  {
    if users != [] {
      CreateAllSkips(srv, w, users[1..], pid);
    }
  }

  /** A successful Users.Create made exactly one membership request per provisioned user. */
  lemma {:induction false} CreateAllMembers(srv: Server, w: World, users: seq<Snapshot.User>, pid: int)
    requires CreateAll(srv, w, users, pid).0 == Pass
    ensures var w1 := CreateAll(srv, w, users, pid).1;
      && w.calls <= w1.calls
      && Memberships(w1.calls[|w.calls|..]) == Provisioned(users)
    decreases |users|
  {
    if users == [] {
      assert w.calls[|w.calls|..] == [];
    } else if Exempt(users[0].username) {
      CreateAllMembers(srv, w, users[1..], pid);
    } else {
      var (o, w1) := CreateOne(srv, w, users[0], pid);
      CreateOneMemberships(srv, w, users[0], pid);
      CreateAllMembers(srv, w1, users[1..], pid);
      var w2 := CreateAll(srv, w1, users[1..], pid).1;
      assert w2.calls[|w.calls|..] == w1.calls[|w.calls|..] + w2.calls[|w1.calls|..];
      MembershipsAppend(w1.calls[|w.calls|..], w2.calls[|w1.calls|..]);
    }
  }

  /** A successful User.Create makes one membership request, none for an unnamed user. */
  lemma CreateOneMemberships(srv: Server, w: World, u: Snapshot.User, pid: int)
    requires CreateOne(srv, w, u, pid).0 == Pass
    ensures var w1 := CreateOne(srv, w, u, pid).1;
      && w.calls <= w1.calls
      && Memberships(w1.calls[|w.calls|..]) == (if u.username == "" then 0 else 1)
  {
    CreateOneCalls(srv, w, u, pid);
    var w1 := CreateOne(srv, w, u, pid).1;
    if u.username == "" {
      assert w1.calls[|w.calls|..] == [];
    } else {
      CreateOneMember(srv, w, u, pid);
      OneMembership(w.calls, w1.calls);
    }
  }

  /** A log extension whose last request, and only that one, is a membership request. */
  lemma OneMembership(a: seq<Call>, b: seq<Call>)
    requires a <= b && |b| > |a| && b[|b| - 1].AddProjectMember?
    requires forall k :: |a| <= k < |b| - 1 ==> !b[k].AddProjectMember?
    ensures Memberships(b[|a|..]) == 1
  {
    var d := b[|a|..];
    assert d == d[..|d| - 1] + [d[|d| - 1]];
    NoMemberships(d[..|d| - 1]);
  }

  lemma {:induction false} NoMemberships(cs: seq<Call>)
    requires forall k :: 0 <= k < |cs| ==> !cs[k].AddProjectMember?
    ensures Memberships(cs) == 0
  {
    if cs != [] {
      NoMemberships(cs[..|cs| - 1]);
    }
  }

  /**
    Every account Users.Create requests has the temporary password and admin rights, and
    belongs to one of the users, none of them admin, root or unnamed.
  */
  lemma {:induction false} CreateAllAccounts(srv: Server, w: World, users: seq<Snapshot.User>, pid: int)
    ensures var w1 := CreateAll(srv, w, users, pid).1;
      && w.calls <= w1.calls
      && forall k :: |w.calls| <= k < |w1.calls| && w1.calls[k].CreateUser? ==>
           && w1.calls[k].user.password == TmpPassword
           && w1.calls[k].user.admin
           && w1.calls[k].user.username != ""
           && !Exempt(w1.calls[k].user.username)
           && exists j :: 0 <= j < |users| && w1.calls[k].user == Account(users[j])
    decreases |users|
  {
    if users == [] {
    } else if Exempt(users[0].username) {
      CreateAllAccounts(srv, w, users[1..], pid);
      AccountsFromTail(srv, w, users, pid);
    } else {
      var (o, w1) := CreateOne(srv, w, users[0], pid);
      CreateOneCalls(srv, w, users[0], pid);
      if o.Pass? {
        CreateAllAccounts(srv, w1, users[1..], pid);
        AccountsFromTail(srv, w1, users, pid);
      }
    }
  }

  /** Accounts requested for the tail of a user list are requested for the list. */
  lemma AccountsFromTail(srv: Server, w: World, users: seq<Snapshot.User>, pid: int)
    requires users != []
    ensures forall k :: |w.calls| <= k < |CreateAll(srv, w, users[1..], pid).1.calls| ==>
      var c := CreateAll(srv, w, users[1..], pid).1.calls[k];
      (c.CreateUser? && (exists j :: 0 <= j < |users[1..]| && c.user == Account(users[1..][j]))) ==>
      exists j :: 0 <= j < |users| && c.user == Account(users[j])
  {
    forall k | |w.calls| <= k < |CreateAll(srv, w, users[1..], pid).1.calls|
      ensures var c := CreateAll(srv, w, users[1..], pid).1.calls[k];
        (c.CreateUser? && (exists j :: 0 <= j < |users[1..]| && c.user == Account(users[1..][j]))) ==>
        exists j :: 0 <= j < |users| && c.user == Account(users[j])
    {
      var c := CreateAll(srv, w, users[1..], pid).1.calls[k];
      if c.CreateUser? && (exists j :: 0 <= j < |users[1..]| && c.user == Account(users[1..][j])) {
        var j :| 0 <= j < |users[1..]| && c.user == Account(users[1..][j]);
        assert users[1..][j] == users[j + 1];
      }
    }
  }

  /** gitlabAddUserToProjectAsMaster */
  method AddUserToProjectAsMaster(s: Session, uid: int, pid: int) returns (r: Outcome)
    modifies s
    ensures (r, s.State()) == AddMember(s.server, old(s.State()), uid, pid)
  {
    var resp := s.AddProjectMember(pid, uid, MasterAccess);
    if resp.status == Conflict {
      return Pass;
    }
    if resp.error.Some? {
      return Fail("unable to add user to project");
    }
    r := Pass;
  }

  /** User.Create */
  method ProvisionUser(s: Session, u: Snapshot.User, pid: int) returns (r: Outcome)
    modifies s
    ensures (r, s.State()) == CreateOne(s.server, old(s.State()), u, pid)
  {
    if u.username == "" {
      return Pass;
    }
    var cu := s.UserGet(u.username);
    var id: int;
    if cu.None? {
      var created := s.CreateUser(Account(u));
      if created.Err? {
        return Fail(created.error);
      }
      id := created.value.id;
    } else {
      id := cu.value.id;
    }
    r := AddUserToProjectAsMaster(s, id, pid);
  }

  /** Users.Create */
  method ProvisionUsers(s: Session, users: seq<Snapshot.User>, pid: int) returns (r: Outcome)
    modifies s
    ensures (r, s.State()) == CreateAll(s.server, old(s.State()), users, pid)
  {
    for k := 0 to |users|
      invariant CreateAll(s.server, old(s.State()), users, pid) == CreateAll(s.server, s.State(), users[k..], pid)
    {
      assert users[k..][1..] == users[k + 1..];
      if !Exempt(users[k].username) {
        var o := ProvisionUser(s, users[k], pid);
        if o.Fail? {
          return o;
        }
      }
    }
    r := Pass;
  }
}
