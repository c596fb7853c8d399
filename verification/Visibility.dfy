/**
 Who may see, use and change a resource: the predicates of
 app/application/visibility.py:112-322, 346-469.

 Ids are strings, with "" for a missing one.
 */
module Visibility {
  import opened Common

  datatype Kind = Agent | DataSource | Script | Workflow

  datatype Scope = Private | Team | Public {
    function Rank(): int {
      match this
      case Private => 0
      case Team => 1
      case Public => 2
    }
  }

  /** A stored resource is named by its kind and id. */
  datatype Ref = Ref(kind: Kind, id: string)

  datatype Access = Read | ReadWrite

  datatype Grantee = User(id: string) | OneWorkflow(id: string)

  datatype Grant = Grant(id: string, grantee: Grantee, access: Access)

  /** What a definition does: what it uses, which operations it calls, which of its own operations write. */
  datatype Content = Content(uses: seq<Ref>, calls: set<(string, string)>, writes: set<string>, body: string)

  datatype Resource = Resource(scope: Scope, owner: string, team: string, grants: seq<Grant>, content: Content)

  datatype Subject = Subject(id: string, team: string, teamAdmin: bool, superAdmin: bool)

  /** Which team each user is in, and which teams exist. */
  datatype Directory = Directory(members: map<string, string>, teams: set<string>) {
    function TeamOf(user: string): string {
      if user != "" && user in members then members[user] else ""
    }
  }

  /** `_team`: only a team resource belongs to a team. */
  function TeamOf(r: Resource): string {
    if r.scope == Team then r.team else ""
  }

  predicate InTeam(s: Subject, r: Resource) {
    TeamOf(r) != "" && s.team == TeamOf(r)
  }

  // ---- Grants ----

  /** `_grant`: the access of the first grant to `grantee`. */
  function GrantTo(grants: seq<Grant>, grantee: Grantee): Option<Access> {
    if grantee.id == "" || grants == [] then None
    else if grants[0].grantee == grantee then Some(grants[0].access)
    else GrantTo(grants[1..], grantee)
  }

  lemma {:induction false} GrantedWhenListed(grants: seq<Grant>, grantee: Grantee)
    ensures GrantTo(grants, grantee).Some? <==>
            grantee.id != "" && exists g :: g in grants && g.grantee == grantee
  {
    if grantee.id != "" && grants != [] {
      GrantedWhenListed(grants[1..], grantee);
      assert grants == [grants[0]] + grants[1..];
    }
  }

  function Best(a: Option<Access>, b: Option<Access>): Option<Access> {
    if a.None? then b
    else if b.None? then a
    else if a.value == ReadWrite || b.value == ReadWrite then Some(ReadWrite)
    else Some(Read)
  }

  /** `grant_access`: through a grant to the workflow itself, or to the owner of a private user. */
  function GrantAccess(user: Ref, u: Resource, used: Resource): Option<Access> {
    Best(if user.kind.Workflow? then GrantTo(used.grants, OneWorkflow(user.id)) else None,
         if u.scope == Private then GrantTo(used.grants, User(u.owner)) else None)
  }

  // ---- Predicates on the caller ----

  /** `can_see` */
  predicate CanSee(caller: Option<Subject>, r: Resource) {
    caller.None? ||
    var s := caller.value;
    || r.scope == Public
    || s.superAdmin
    || (s.id != "" && r.owner == s.id)
    || (s.id != "" && GrantTo(r.grants, User(s.id)).Some?)
    || InTeam(s, r)
  }

  /** `can_manage` */
  predicate CanManage(caller: Option<Subject>, r: Resource) {
    caller.None? ||
    var s := caller.value;
    s.superAdmin || if r.owner == "" then r.scope == Public else s.id != "" && r.owner == s.id
  }

  /** `can_edit`: team members edit team workflows; a read_write grantee edits an agent or a workflow. */
  predicate CanEdit(caller: Option<Subject>, kind: Kind, r: Resource) {
    || CanManage(caller, r)
    || (caller.Some? && kind.Workflow? && InTeam(caller.value, r))
    || (caller.Some? && (kind.Agent? || kind.Workflow?) && GrantTo(r.grants, User(caller.value.id)) == Some(ReadWrite))
  }

  /** `can_change_visibility` */
  predicate CanChangeVisibility(caller: Option<Subject>, r: Resource) {
    CanManage(caller, r) || (caller.Some? && caller.value.teamAdmin && InTeam(caller.value, r))
  }

  /** The grant at `i` is the first one to the grantee. */
  ghost predicate FirstTo(grants: seq<Grant>, i: nat, grantee: Grantee) {
    i < |grants| && grants[i].grantee == grantee && forall j :: 0 <= j < i ==> grants[j].grantee != grantee
  }

  /** The grantee is given one of these accesses by name. */
  ghost predicate Named(grants: seq<Grant>, grantee: Grantee, allowed: set<Access>) {
    grantee.id != "" && exists i: nat :: FirstTo(grants, i, grantee) && grants[i].access in allowed
  }

  lemma {:induction false} FirstGrant(grants: seq<Grant>, grantee: Grantee) returns (i: nat)
    requires grantee.id != ""
    ensures match GrantTo(grants, grantee)
            case Some(access) => FirstTo(grants, i, grantee) && grants[i].access == access
            case None => forall g :: g in grants ==> g.grantee != grantee
  {
    i := 0;
    if grants != [] && grants[0].grantee != grantee {
      i := FirstGrant(grants[1..], grantee);
      assert forall j :: 0 < j < |grants| ==> grants[j] == grants[1..][j - 1];
      i := i + 1;
    }
  }

  lemma GrantIsFirst(grants: seq<Grant>, grantee: Grantee, allowed: set<Access>)
    ensures GrantTo(grants, grantee).Some? && GrantTo(grants, grantee).value in allowed <==> Named(grants, grantee, allowed)
  {
    if grantee.id != "" {
      var first := FirstGrant(grants, grantee);
      hide GrantTo;
      if i: nat :| FirstTo(grants, i, grantee) && grants[i].access in allowed {
        assert grants[i] in grants && (i < first || i == first || first < i);
      }
    }
  }

  /** Who may see, manage, edit and rescope a resource; a caller without a subject is the system itself. */
  lemma WhoMay(s: Subject, kind: Kind, r: Resource)
    ensures var owns := s.superAdmin || (if r.owner == "" then r.scope == Public else r.owner == s.id);
            var mate := r.scope == Team && r.team != "" && r.team == s.team;
            && (CanSee(Some(s), r) <==>
                  s.superAdmin || r.scope == Public || mate || (s.id != "" && r.owner == s.id) || Named(r.grants, User(s.id), {Read, ReadWrite}))
            && (CanManage(Some(s), r) <==> owns)
            && (CanEdit(Some(s), kind, r) <==>
                  owns || (kind == Workflow && mate) || (kind in {Agent, Workflow} && Named(r.grants, User(s.id), {ReadWrite})))
            && (CanChangeVisibility(Some(s), r) <==> owns || (s.teamAdmin && mate))
    ensures CanSee(None, r) && CanManage(None, r) && CanEdit(None, kind, r) && CanChangeVisibility(None, r)
  {
    GrantIsFirst(r.grants, User(s.id), {Read, ReadWrite});
    GrantIsFirst(r.grants, User(s.id), {ReadWrite});
    var access := GrantTo(r.grants, User(s.id));
    assert access.Some? ==> access.value.Read? || access.value.ReadWrite?;
  }

  /** Each right includes the weaker ones. */
  lemma RightsNest(caller: Option<Subject>, kind: Kind, r: Resource)
    ensures CanManage(caller, r) ==> CanEdit(caller, kind, r) && CanChangeVisibility(caller, r)
    ensures CanEdit(caller, kind, r) || CanChangeVisibility(caller, r) ==> CanSee(caller, r)
  {
  }

  // ---- References ----

  /** `references`: agents use data sources only; data sources and scripts use nothing. */
  function References(kind: Kind, r: Resource): (refs: seq<Ref>)
    ensures forall q :: q in refs ==> kind.Workflow? || (kind.Agent? && q.kind.DataSource?)
  {
    match kind
    case Workflow => r.content.uses
    case Agent => SourcesOnly(r.content.uses)
    case _ => []
  }

  function SourcesOnly(refs: seq<Ref>): (out: seq<Ref>)
    ensures forall q :: q in out <==> q in refs && q.kind.DataSource?
  {
    if refs == [] then []
    else (if refs[0].kind.DataSource? then [refs[0]] else []) + SourcesOnly(refs[1..])
  }

  /** `_scope_violation` finds nothing: the used resource is at least as widely visible as its user. */
  predicate ScopeAllows(dir: Directory, u: Resource, used: Resource) {
    && used.scope.Rank() >= u.scope.Rank()
    && (used.scope == Team && u.scope == Team ==> TeamOf(u) == TeamOf(used))
    && (used.scope == Team && u.scope == Private ==> dir.TeamOf(u.owner) == TeamOf(used))
    && (used.scope == Private ==> used.owner == u.owner)
  }

  /** `_violation` finds nothing: scope allows it, or a grant does. */
  predicate Allows(dir: Directory, user: Ref, u: Resource, used: Resource) {
    ScopeAllows(dir, u, used) || GrantAccess(user, u, used).Some?
  }

  /** What a grant gives: through one to the workflow itself, or to the owner of a private resource, the better of the two. */
  lemma GrantedThrough(user: Ref, u: Resource, used: Resource, allowed: set<Access>)
    requires ReadWrite in allowed
    ensures GrantAccess(user, u, used).Some? && GrantAccess(user, u, used).value in allowed <==>
              || (user.kind.Workflow? && Named(used.grants, OneWorkflow(user.id), allowed))
              || (u.scope == Private && Named(used.grants, User(u.owner), allowed))
  {
    hide Named, GrantTo;
    GrantIsFirst(used.grants, OneWorkflow(user.id), allowed);
    GrantIsFirst(used.grants, User(u.owner), allowed);
    var (a, b) := (GrantTo(used.grants, OneWorkflow(user.id)), GrantTo(used.grants, User(u.owner)));
    assert (a.Some? ==> a.value.Read? || a.value.ReadWrite?) && (b.Some? ==> b.value.Read? || b.value.ReadWrite?);
  }

  /** Scope lets a resource use what everybody sees who sees it by scope. */
  lemma ScopeCovers(dir: Directory, u: Resource, used: Resource)
    ensures ScopeAllows(dir, u, used) <==>
              match used.scope
              case Public => true
              case Team =>
                || (u.scope == Team && u.team == used.team)
                || (u.scope == Private && used.team == if u.owner != "" && u.owner in dir.members then dir.members[u.owner] else "")
              case Private => u.scope == Private && u.owner == used.owner
  {
  }

  // ---- Visibility along reference chains ----

  /** Seen by publicness, super-admin rights, team membership or private ownership. */
  predicate SeesNatively(s: Subject, r: Resource) {
    r.scope == Public || s.superAdmin || InTeam(s, r) || (r.scope == Private && s.id != "" && r.owner == s.id)
  }

  /** Whoever sees the user natively sees natively whatever scope lets it use. */
  lemma NativeStep(dir: Directory, s: Subject, u: Resource, used: Resource)
    requires ScopeAllows(dir, u, used) && SeesNatively(s, u)
    requires s.team == dir.TeamOf(s.id)
    requires used.scope == Team ==> used.team != ""
    ensures SeesNatively(s, used)
  {
  }

  type Resources = map<Ref, Resource>

  /** A chain of references between stored resources. */
  ghost predicate Chain(store: Resources, p: seq<Ref>) {
    && p != []
    && (forall i :: 0 <= i < |p| ==> p[i] in store)
    && forall i, j :: 0 <= i < j < |p| && j == i + 1 ==> p[j] in References(p[i].kind, store[p[i]])
  }

  ghost predicate ScopeSafe(dir: Directory, store: Resources) {
    forall a, b :: a in store && b in store && a != b && b in References(a.kind, store[a]) ==>
      ScopeAllows(dir, store[a], store[b])
  }

  ghost predicate TeamsNamed(store: Resources) {
    forall r :: r in store && store[r].scope == Team ==> store[r].team != ""
  }

  /** Seeing a root natively means seeing everything reachable from it, however long the chain. */
  lemma {:induction false} VisibleAlongChains(dir: Directory, store: Resources, s: Subject, p: seq<Ref>)
    requires ScopeSafe(dir, store) && TeamsNamed(store)
    requires s.team == dir.TeamOf(s.id)
    requires Chain(store, p) && SeesNatively(s, store[p[0]])
    ensures forall i :: 0 <= i < |p| ==> SeesNatively(s, store[p[i]]) && CanSee(Some(s), store[p[i]])
    decreases |p|
  {
    var k := |p| - 1;
    if k > 0 {
      var q := p[..k];
      assert forall i :: 0 <= i < k ==> q[i] == p[i];
      VisibleAlongChains(dir, store, s, q);
      assert SeesNatively(s, store[q[k - 1]]);
      if p[k - 1] != p[k] {
        NativeStep(dir, s, store[p[k - 1]], store[p[k]]);
      }
    }
  }

  /** A resource nobody but its scope opens up: the same scope, someone else's, no grants. */
  function Sibling(r: Resource): Resource {
    Resource(r.scope, if r.scope == Private then r.owner else "", r.team, [], r.content)
  }

  /**
   Native sight is exactly what closure needs: a caller who sees a resource only
   by owning it from outside its team, or by a grant, can be refused something it
   uses.
   */
  lemma ClosedExactlyWhenNative(dir: Directory, s: Subject, u: Resource)
    requires s.id != "" && s.team == dir.TeamOf(s.id)
    ensures (forall used: Resource :: ScopeAllows(dir, u, used) && (used.scope == Team ==> used.team != "") ==>
                CanSee(Some(s), used))
            <==> SeesNatively(s, u) || (u.scope == Team && u.team == "")
  {
    if SeesNatively(s, u) {
      forall used: Resource | ScopeAllows(dir, u, used) && (used.scope == Team ==> used.team != "")
        ensures CanSee(Some(s), used)
      {
        NativeStep(dir, s, u, used);
      }
    } else if u.scope == Team && u.team == "" {
      assert forall used: Resource :: ScopeAllows(dir, u, used) && used.scope == Team ==> used.team == "";
    } else {
      var used := Sibling(u);
      assert ScopeAllows(dir, u, used) && !CanSee(Some(s), used);
    }
  }

  /** The owner of a team resource who has left the team sees it, but not another one of the team it uses. */
  lemma FormerMemberIsTheException()
    ensures var dir := Directory(map["ann" := "", "bob" := "red"], {"red"});
            var ann := Subject("ann", "", false, false);
            var none := Content([], {}, {}, "");
            var u := Resource(Team, "ann", "red", [], none);
            var used := Resource(Team, "bob", "red", [], none);
            && ann.team == dir.TeamOf(ann.id)
            && ScopeAllows(dir, u, used)
            && CanSee(Some(ann), u) && !CanSee(Some(ann), used)
  {
    assert "ann" != "bob";
  }
}
