/**
 Saving, deleting and granting through the visibility-scoped backends:
 `ReferenceGuard` and `VisibilityScopedBackend` of
 app/application/visibility.py:410-548, 603-739, and `grant` of
 app/application/grants.py:91-203.  Each call is one step.
 */
module ReferenceStore {
  import opened Common
  import opened Visibility

  datatype Error =
    | ResourceNotFound | NotOwner | InvalidReference | StillReferenced | IdTaken
    | TeamInvalid | GrantInvalid | GrantConflict

  datatype Result<+T> = Ok(value: T) | Err(error: Error)

  /** What a caller submits: `scope` and `team` only when the request set them. */
  datatype Draft = Draft(scope: Option<Scope>, team: string, content: Content)

  // ---- Preparing a save ----

  /** `_resolve_team` */
  function ResolveTeam(dir: Directory, caller: Option<Subject>, requested: string, existing: Option<Resource>): Result<string> {
    var stored := if existing.Some? then TeamOf(existing.value) else "";
    if requested != "" && requested == stored then Ok(stored)
    else if caller.None? then Ok(if requested != "" then requested else stored)
    else
      var s := caller.value;
      if s.superAdmin then
        var team := if requested != "" then requested else if stored != "" then stored else s.team;
        if team == "" || team !in dir.teams then Err(TeamInvalid) else Ok(team)
      else if requested != "" && requested != s.team then Err(NotOwner)
      else if stored != "" && requested == "" then Ok(stored)
      else if s.team == "" then Err(TeamInvalid)
      else Ok(s.team)
  }

  predicate Grantable(kind: Kind) {
    !kind.Script?
  }

  /** The saved fields before the team is resolved: owner and grants come from the store, not from the draft. */
  function Stamped(caller: Option<Subject>, kind: Kind, draft: Draft, existing: Option<Resource>): Resource {
    var callerId := if caller.Some? then caller.value.id else "";
    match existing
    case None =>
      var scope := if draft.scope.Some? then draft.scope.value else if callerId != "" then Private else Public;
      Resource(scope, callerId, "", [], draft.content)
    case Some(was) =>
      var scope := if draft.scope.Some? then draft.scope.value else was.scope;
      Resource(scope, if scope != Public && was.owner == "" then callerId else was.owner,
               "", if Grantable(kind) then was.grants else [], draft.content)
  }

  /** `_prepare` up to the reference checks. */
  function Prepared(dir: Directory, caller: Option<Subject>, kind: Kind, draft: Draft, existing: Option<Resource>): Result<Resource> {
    var r := Stamped(caller, kind, draft, existing);
    var team := if r.scope == Team then ResolveTeam(dir, caller, draft.team, existing) else Ok("");
    if team.Err? then Err(team.error)
    else
      var saved := r.(team := team.value);
      if existing.Some?
         && (saved.scope != existing.value.scope || saved.team != TeamOf(existing.value))
         && !CanChangeVisibility(caller, existing.value)
      then Err(NotOwner)
      else Ok(saved)
  }

  /** No operation called on `target` writes when the access to it is a read grant. */
  predicate CallsAllowed(dir: Directory, self: Ref, r: Resource, target: Ref, used: Resource) {
    ScopeAllows(dir, r, used) || GrantAccess(self, r, used) != Some(Read) ||
    forall op :: op in r.content.calls && op.0 == target.id ==> op.1 !in used.content.writes
  }

  /** One reference of a save passes: dangling and self references are not checked. */
  predicate ReferenceAllowed(dir: Directory, caller: Option<Subject>, store: Resources, self: Ref, r: Resource,
                             kept: seq<Ref>, target: Ref)
  {
    target == self || target !in store ||
    var used := store[target];
    && (CanSee(caller, used) || GrantAccess(self, r, used).Some? || target in kept)
    && Allows(dir, self, r, used)
    && (target.kind.DataSource? ==> CallsAllowed(dir, self, r, target, used))
  }

  ghost predicate ReferencesAllowed(dir: Directory, caller: Option<Subject>, store: Resources, self: Ref, r: Resource, kept: seq<Ref>) {
    forall t :: t in References(self.kind, r) ==> ReferenceAllowed(dir, caller, store, self, r, kept, t)
  }

  function KeptReferences(kind: Kind, existing: Option<Resource>): seq<Ref> {
    if existing.Some? then References(kind, existing.value) else []
  }

  /** `check_references`: the references are tried in order, the first bad one refuses the save. */
  method CheckReferences(dir: Directory, caller: Option<Subject>, store: Resources, self: Ref, r: Resource,
                         existing: Option<Resource>) returns (ok: bool)
    ensures ok <==> ReferencesAllowed(dir, caller, store, self, r, KeptReferences(self.kind, existing))
  {
    var kept := KeptReferences(self.kind, existing);
    var refs := References(self.kind, r);
    for i := 0 to |refs|
      invariant forall k :: 0 <= k < i ==> ReferenceAllowed(dir, caller, store, self, r, kept, refs[k])
    {
      if !ReferenceAllowed(dir, caller, store, self, r, kept, refs[i]) {
        assert refs[i] in refs;
        return false;
      }
    }
    return true;
  }

  /** The stored resource `q` is not broken by `self` being saved as `r`. */
  predicate ReferrerContent(dir: Directory, store: Resources, self: Ref, r: Resource, q: Ref)
    requires q in store
  {
    q == self || self !in References(q.kind, store[q]) || Allows(dir, q, store[q], r)
  }

  /** `check_narrowing`: workflows, and for a data source also agents, are the possible referrers. */
  ghost predicate NarrowingAllowed(dir: Directory, store: Resources, self: Ref, r: Resource) {
    forall q :: q in store && (q.kind.Workflow? || (q.kind.Agent? && self.kind.DataSource?)) ==>
      ReferrerContent(dir, store, self, r, q)
  }

  method CheckNarrowing(dir: Directory, store: Resources, self: Ref, r: Resource) returns (ok: bool)
    ensures ok <==> NarrowingAllowed(dir, store, self, r)
  {
    var rest := set q | q in store && (q.kind.Workflow? || (q.kind.Agent? && self.kind.DataSource?));
    while rest != {}
      invariant forall q :: q in rest ==> q in store && (q.kind.Workflow? || (q.kind.Agent? && self.kind.DataSource?))
      invariant forall q :: q in store && q !in rest && (q.kind.Workflow? || (q.kind.Agent? && self.kind.DataSource?)) ==>
                  ReferrerContent(dir, store, self, r, q)
      decreases |rest|
    {
      var q :| q in rest;
      if !ReferrerContent(dir, store, self, r, q) {
        return false;
      }
      rest := rest - {q};
    }
    return true;
  }

  /** The save makes the resource visible to fewer people, or to another team. */
  predicate Narrows(existing: Option<Resource>, saved: Resource) {
    match existing
    case None => saved.scope != Public
    case Some(was) =>
      saved.scope.Rank() < was.scope.Rank() || (saved.scope == Team && saved.team != TeamOf(was))
  }

  /** `_prepare`: what would be written, or why not. With nobody bound nothing is checked. */
  ghost function PrepareSpec(dir: Directory, caller: Option<Subject>, store: Resources, self: Ref, draft: Draft): Result<Resource> {
    var existing := if self in store then Some(store[self]) else None;
    var p := Prepared(dir, caller, self.kind, draft, existing);
    if p.Err? || caller.None? then p
    else if !ReferencesAllowed(dir, caller, store, self, p.value, KeptReferences(self.kind, existing)) then Err(InvalidReference)
    else if Narrows(existing, p.value) && !NarrowingAllowed(dir, store, self, p.value) then Err(StillReferenced)
    else p
  }

  /** `_check_editable` */
  function Editable(caller: Option<Subject>, kind: Kind, existing: Resource): Option<Error> {
    if !CanSee(caller, existing) then Some(ResourceNotFound)
    else if !CanEdit(caller, kind, existing) then Some(NotOwner)
    else None
  }

  /** A team admin re-scoping their team's resource, and changing nothing else. */
  predicate OnlyRescopes(caller: Option<Subject>, kind: Kind, existing: Resource, draft: Draft) {
    && CanSee(caller, existing)
    && !CanEdit(caller, kind, existing)
    && CanChangeVisibility(caller, existing)
    && draft.content == existing.content
  }

  // ---- The operations as functions of the store ----

  ghost function CreateSpec(dir: Directory, caller: Option<Subject>, store: Resources, self: Ref, draft: Draft): Result<Resources> {
    if self in store && !CanSee(caller, store[self]) then Err(IdTaken)
    else if self in store && Editable(caller, self.kind, store[self]).Some? then Err(Editable(caller, self.kind, store[self]).value)
    else
      var p := PrepareSpec(dir, caller, store, self, draft);
      if p.Err? then Err(p.error) else Ok(store[self := p.value])
  }

  ghost function UpdateSpec(dir: Directory, caller: Option<Subject>, store: Resources, self: Ref, draft: Draft): Result<Resources> {
    if self in store && !OnlyRescopes(caller, self.kind, store[self], draft) && Editable(caller, self.kind, store[self]).Some?
    then Err(Editable(caller, self.kind, store[self]).value)
    else
      var p := PrepareSpec(dir, caller, store, self, draft);
      if p.Err? then Err(p.error) else Ok(store[self := p.value])
  }

  function WithoutGrantee(grants: seq<Grant>, grantee: Grantee): (out: seq<Grant>)
    ensures forall g :: g in out <==> g in grants && g.grantee != grantee
  {
    if grants == [] then []
    else (if grants[0].grantee != grantee then [grants[0]] else []) + WithoutGrantee(grants[1..], grantee)
  }

  /** `drop_workflow_grants`: no resource keeps a grant to the deleted workflow. */
  function GrantsDropped(store: Resources, workflow: string): Resources {
    map r | r in store ::
      if Grantable(r.kind) then store[r].(grants := WithoutGrantee(store[r].grants, OneWorkflow(workflow))) else store[r]
  }

  function DeleteSpec(caller: Option<Subject>, store: Resources, self: Ref): Result<Resources> {
    if self !in store then Ok(store)
    else if !CanSee(caller, store[self]) then Err(ResourceNotFound)
    else if !CanManage(caller, store[self]) then Err(NotOwner)
    else if self.kind.Workflow? then Ok(GrantsDropped(store - {self}, self.id))
    else Ok(store - {self})
  }

  function ShareProblem(caller: Option<Subject>, store: Resources, self: Ref): Option<Error> {
    if !Grantable(self.kind) then Some(GrantInvalid)
    else if self !in store || !CanSee(caller, store[self]) then Some(ResourceNotFound)
    else if !CanChangeVisibility(caller, store[self]) then Some(NotOwner)
    else None
  }

  /** `_check_user_grantee`: someone the resource's scope leaves out. */
  function UserProblem(dir: Directory, r: Resource, user: string): Option<Error> {
    if user == r.owner then Some(GrantConflict)
    else if user !in dir.members then Some(GrantInvalid)
    else if TeamOf(r) != "" && dir.members[user] == TeamOf(r) then Some(GrantConflict)
    else None
  }

  /** `_check_workflow_grantee`: a workflow whose scope does not cover the resource; use only, unless a data source. */
  function WorkflowProblem(dir: Directory, store: Resources, self: Ref, access: Access, workflow: string): Option<Error>
    requires self in store
  {
    if !self.kind.DataSource? && access != Read then Some(GrantInvalid)
    else if self.kind.Workflow? && workflow == self.id then Some(GrantConflict)
    else if Ref(Workflow, workflow) !in store then Some(GrantInvalid)
    else if ScopeAllows(dir, store[Ref(Workflow, workflow)], store[self]) then Some(GrantConflict)
    else None
  }

  function GrantSpec(dir: Directory, caller: Option<Subject>, store: Resources, self: Ref, grantee: Grantee, access: Access, newId: string)
    : Result<Resources>
  {
    if ShareProblem(caller, store, self).Some? then Err(ShareProblem(caller, store, self).value)
    else if grantee.id == "" then Err(GrantInvalid)
    else if store[self].scope == Public then Err(GrantConflict)
    else
      var r := store[self];
      var problem := match grantee
        case User(u) => UserProblem(dir, r, u)
        case OneWorkflow(w) => WorkflowProblem(dir, store, self, access, w);
      if problem.Some? then Err(problem.value)
      else Ok(store[self := r.(grants := WithoutGrantee(r.grants, grantee) + [Grant(newId, grantee, access)])])
  }

  /** The four backends behind their visibility scope. */
  class ScopedBackends {
    const dir: Directory
    var items: Resources

    constructor (dir: Directory)
      ensures this.dir == dir && items == map[]
    {
      this.dir := dir;
      items := map[];
    }

    method Prepare(caller: Option<Subject>, self: Ref, draft: Draft) returns (r: Result<Resource>)
      ensures r == PrepareSpec(dir, caller, items, self, draft)
      ensures r.Ok? ==> IsDue(caller, items, self, draft, r.value)
    {
      if PrepareSpec(dir, caller, items, self, draft).Ok? {
        SaveStoresWhatIsDue(dir, caller, items, self, draft);
      }
      hide IsDue, Stamped, Prepared;
      var existing := if self in items then Some(items[self]) else None;
      r := Prepared(dir, caller, self.kind, draft, existing);
      if r.Err? || caller.None? {
        return;
      }
      var usable := CheckReferences(dir, caller, items, self, r.value, existing);
      if !usable {
        return Err(InvalidReference);
      }
      if Narrows(existing, r.value) {
        var narrow := CheckNarrowing(dir, items, self, r.value);
        if !narrow {
          return Err(StillReferenced);
        }
      }
    }

    method Create(caller: Option<Subject>, self: Ref, draft: Draft) returns (r: Result<Resource>)
      modifies this
      ensures var spec := CreateSpec(dir, caller, old(items), self, draft);
              match spec
              case Ok(after) => items == after && r == Ok(after[self])
              case Err(e) => items == old(items) && r == Err(e)
      ensures r.Ok? ==> IsDue(caller, old(items), self, draft, r.value) && items == old(items)[self := r.value]
    {
      hide IsDue, Stamped, Prepared;
      if self in items {
        if !CanSee(caller, items[self]) {
          return Err(IdTaken);
        }
        var problem := Editable(caller, self.kind, items[self]);
        if problem.Some? {
          return Err(problem.value);
        }
      }
      r := Prepare(caller, self, draft);
      if r.Ok? {
        SaveStoresWhatIsDue(dir, caller, items, self, draft);
        items := items[self := r.value];
      }
    }

    method Update(caller: Option<Subject>, self: Ref, draft: Draft) returns (r: Result<Resource>)
      modifies this
      ensures var spec := UpdateSpec(dir, caller, old(items), self, draft);
              match spec
              case Ok(after) => items == after && r == Ok(after[self])
              case Err(e) => items == old(items) && r == Err(e)
      ensures r.Ok? ==> IsDue(caller, old(items), self, draft, r.value) && items == old(items)[self := r.value]
    {
      hide IsDue, Stamped, Prepared;
      if self in items && !OnlyRescopes(caller, self.kind, items[self], draft) {
        var problem := Editable(caller, self.kind, items[self]);
        if problem.Some? {
          return Err(problem.value);
        }
      }
      r := Prepare(caller, self, draft);
      if r.Ok? {
        SaveStoresWhatIsDue(dir, caller, items, self, draft);
        items := items[self := r.value];
      }
    }

    method Delete(caller: Option<Subject>, self: Ref) returns (error: Option<Error>)
      modifies this
      ensures var spec := DeleteSpec(caller, old(items), self);
              match spec
              case Ok(after) => items == after && error.None?
              case Err(e) => items == old(items) && error == Some(e)
    {
      error := None;
      if self in items {
        if !CanSee(caller, items[self]) {
          return Some(ResourceNotFound);
        }
        if !CanManage(caller, items[self]) {
          return Some(NotOwner);
        }
        items := items - {self};
        if self.kind.Workflow? {
          DropWorkflowGrants(self.id);
        }
      }
    }

    method DropWorkflowGrants(workflow: string)
      modifies this
      ensures items == GrantsDropped(old(items), workflow)
    {
      var rest := items.Keys;
      while rest != {}
        invariant items.Keys == old(items).Keys && rest <= items.Keys
        invariant forall r :: r in rest ==> items[r] == old(items)[r]
        invariant forall r :: r in items && r !in rest ==> items[r] == GrantsDropped(old(items), workflow)[r]
        decreases |rest|
      {
        var r :| r in rest;
        if Grantable(r.kind) {
          items := items[r := items[r].(grants := WithoutGrantee(items[r].grants, OneWorkflow(workflow)))];
        }
        rest := rest - {r};
      }
    }

    /** `_resource_to_share`: why the caller may not manage the resource's grants. */
    method NotShareable(caller: Option<Subject>, self: Ref) returns (error: Option<Error>)
      ensures error == ShareProblem(caller, items, self)
    {
      if !Grantable(self.kind) {
        return Some(GrantInvalid);
      }
      if self !in items || !CanSee(caller, items[self]) {
        return Some(ResourceNotFound);
      }
      if !CanChangeVisibility(caller, items[self]) {
        return Some(NotOwner);
      }
      return None;
    }

    /** `grant`: the grantee's previous grant, if any, is replaced. */
    method Share(caller: Option<Subject>, self: Ref, grantee: Grantee, access: Access, newId: string)
      returns (error: Option<Error>)
      modifies this
      ensures var spec := GrantSpec(dir, caller, old(items), self, grantee, access, newId);
              match spec
              case Ok(after) => items == after && error.None?
              case Err(e) => items == old(items) && error == Some(e)
    {
      error := NotShareable(caller, self);
      if error.Some? {
        return;
      }
      if grantee.id == "" {
        return Some(GrantInvalid);
      }
      if items[self].scope == Public {
        return Some(GrantConflict);
      }
      match grantee {
        case User(u) => error := UserProblem(dir, items[self], u);
        case OneWorkflow(w) => error := WorkflowProblem(dir, items, self, access, w);
      }
      if error.Some? {
        return;
      }
      var others := WithoutGrantee(items[self].grants, grantee);
      items := items[self := items[self].(grants := others + [Grant(newId, grantee, access)])];
    }
  }

  // ---- What a save stores, and when ----

  /** The first of the three that is given. */
  function FirstGiven(a: string, b: string, c: string): string {
    if a != "" then a else if b != "" then b else c
  }

  function OwnTeam(caller: Option<Subject>): string {
    if caller.Some? then caller.value.team else ""
  }

  /** The team is the requested one, else the stored one, else the caller's own; who may not have it is told why. */
  lemma TeamIsFirstGiven(dir: Directory, caller: Option<Subject>, requested: string, existing: Option<Resource>)
    ensures var stored := if existing.Some? && existing.value.scope == Team then existing.value.team else "";
            var team := FirstGiven(requested, stored, OwnTeam(caller));
            var same := requested != "" && requested == stored;
            match ResolveTeam(dir, caller, requested, existing)
            case Ok(t) =>
              && t == team
              && (caller.Some? && !same ==> team != "")
              && (caller.Some? && caller.value.superAdmin && !same ==> team in dir.teams)
              && (caller.Some? && !caller.value.superAdmin ==> requested in {"", stored, caller.value.team})
            case Err(NotOwner) =>
              caller.Some? && !caller.value.superAdmin && requested !in {"", stored, caller.value.team}
            case Err(TeamInvalid) =>
              caller.Some? && !same && (team == "" || (caller.value.superAdmin && team !in dir.teams))
            case Err(_) => false
  {
  }

  /** What a save is due to store: the submitted content, under the scope, owner, grants and team it comes to have. */
  ghost predicate IsDue(caller: Option<Subject>, store: Resources, self: Ref, draft: Draft, r: Resource) {
    var callerId := if caller.Some? then caller.value.id else "";
    && r.content == draft.content
    && (draft.scope.Some? ==> r.scope == draft.scope.value)
    && (draft.scope.None? && self in store ==> r.scope == store[self].scope)
    && (draft.scope.None? && self !in store ==> r.scope == if callerId != "" then Private else Public)
    && (self !in store ==> r.owner == callerId && r.grants == [])
    && (self in store && (store[self].owner != "" || r.scope == Public) ==> r.owner == store[self].owner)
    && (self in store && store[self].owner == "" && r.scope != Public ==> r.owner == callerId)
    && (self in store ==> r.grants == if self.kind.Script? then [] else store[self].grants)
    && (r.scope != Team ==> r.team == "")
    && (r.scope == Team ==>
          r.team == FirstGiven(draft.team,
                               if self in store && store[self].scope == Team then store[self].team else "", OwnTeam(caller)))
  }

  lemma SaveStoresWhatIsDue(dir: Directory, caller: Option<Subject>, store: Resources, self: Ref, draft: Draft)
    requires PrepareSpec(dir, caller, store, self, draft).Ok?
    ensures IsDue(caller, store, self, draft, PrepareSpec(dir, caller, store, self, draft).value)
  {
    TeamIsFirstGiven(dir, caller, draft.team, if self in store then Some(store[self]) else None);
  }

  /** Fewer people, or other ones, see the resource once it is stored as `r`. */
  ghost predicate SeenByFewer(store: Resources, self: Ref, r: Resource) {
    if self !in store then r.scope != Public
    else
      var was := store[self];
      || (was.scope == Public && r.scope != Public)
      || (was.scope == Team && r.scope == Private)
      || (r.scope == Team && (was.scope != Team || r.team != was.team))
  }

  /** The caller may make the resource visible as `r` would be. */
  ghost predicate MayRescope(dir: Directory, caller: Option<Subject>, store: Resources, self: Ref, draft: Draft, r: Resource) {
    && (r.scope == Team ==> ResolveTeam(dir, caller, draft.team, if self in store then Some(store[self]) else None).Ok?)
    && (self in store && (r.scope != store[self].scope || (r.scope == Team && r.team != store[self].team)) ==>
          CanChangeVisibility(caller, store[self]))
  }

  /** A save passes exactly when what is due may be visible that way, uses what it may, and strands nobody. */
  lemma SavePassesExactlyWhen(dir: Directory, caller: Option<Subject>, store: Resources, self: Ref, draft: Draft, r: Resource)
    requires IsDue(caller, store, self, draft, r)
    ensures PrepareSpec(dir, caller, store, self, draft) == Ok(r) <==>
              && MayRescope(dir, caller, store, self, draft, r)
              && (caller.Some? ==>
                    && ReferencesAllowed(dir, caller, store, self, r,
                                         if self in store then References(self.kind, store[self]) else [])
                    && (SeenByFewer(store, self, r) ==> NarrowingAllowed(dir, store, self, r)))
  {
    var existing := if self in store then Some(store[self]) else None;
    TeamIsFirstGiven(dir, caller, draft.team, existing);
    hide ReferencesAllowed, NarrowingAllowed, CanChangeVisibility, ResolveTeam;
  }

  /** Creating over an id, and updating it, by who the caller is to the resource that has it. */
  lemma SavesAreGuarded(dir: Directory, caller: Option<Subject>, store: Resources, self: Ref, draft: Draft)
    ensures var p := PrepareSpec(dir, caller, store, self, draft);
            var saved := if p.Ok? then Ok(store[self := p.value]) else Err(p.error);
            var created := CreateSpec(dir, caller, store, self, draft);
            var updated := UpdateSpec(dir, caller, store, self, draft);
            if self !in store then created == saved && updated == saved
            else
              var was := store[self];
              if !CanSee(caller, was) then created == Err(IdTaken) && updated == Err(ResourceNotFound)
              else if CanEdit(caller, self.kind, was) then created == saved && updated == saved
              else
                && created == Err(NotOwner)
                && updated == if CanChangeVisibility(caller, was) && draft.content == was.content then saved else Err(NotOwner)
  {
  }

  /** A reference that is neither dangling nor to itself may be made to what the saver sees and the scope or a grant covers, and a read grant does not do for writing. */
  lemma ReferencesPassExactlyWhen(dir: Directory, caller: Option<Subject>, store: Resources, self: Ref, r: Resource, kept: seq<Ref>)
    ensures ReferencesAllowed(dir, caller, store, self, r, kept) <==>
              forall t :: t in References(self.kind, r) && t != self && t in store ==>
                var granted := GrantAccess(self, r, store[t]);
                && (granted.Some? || ((CanSee(caller, store[t]) || t in kept) && ScopeAllows(dir, r, store[t])))
                && (t.kind.DataSource? && granted == Some(Read) && !ScopeAllows(dir, r, store[t]) ==>
                      forall op :: op in store[t].content.writes ==> (t.id, op) !in r.content.calls)
  {
    hide GrantAccess, ScopeAllows, CanSee, References;
    forall t | t in store
      ensures CallsAllowed(dir, self, r, t, store[t]) <==>
                (GrantAccess(self, r, store[t]) == Some(Read) && !ScopeAllows(dir, r, store[t]) ==>
                   forall op :: op in store[t].content.writes ==> (t.id, op) !in r.content.calls)
    {
      CallsPass(dir, self, r, t, store[t]);
    }
  }

  lemma CallsPass(dir: Directory, self: Ref, r: Resource, t: Ref, used: Resource)
    ensures CallsAllowed(dir, self, r, t, used) <==>
              (GrantAccess(self, r, used) == Some(Read) && !ScopeAllows(dir, r, used) ==>
                 forall op :: op in used.content.writes ==> (t.id, op) !in r.content.calls)
  {
    hide GrantAccess, ScopeAllows;
    assert forall call: (string, string) :: call.0 == t.id ==> call == (t.id, call.1);
  }

  // ---- What deleting and granting store, and when ----

  /** Taking one grantee's grants away leaves everybody else the access they had. */
  lemma {:induction false} OthersKeepAccess(grants: seq<Grant>, grantee: Grantee, other: Grantee)
    ensures GrantTo(WithoutGrantee(grants, grantee), other) == if other == grantee then None else GrantTo(grants, other)
  {
    if grants != [] {
      OthersKeepAccess(grants[1..], grantee, other);
      var rest := WithoutGrantee(grants[1..], grantee);
      assert [] + rest == rest && ([grants[0]] + rest)[1..] == rest;
    }
  }

  lemma {:induction false} LastIsAdded(grants: seq<Grant>, g: Grant, other: Grantee)
    ensures GrantTo(grants + [g], other) ==
              if GrantTo(grants, other).Some? then GrantTo(grants, other)
              else if other.id != "" && other == g.grantee then Some(g.access)
              else None
  {
    if grants == [] {
      assert grants + [g] == [g] && [g][1..] == [];
    } else {
      LastIsAdded(grants[1..], g, other);
      assert (grants + [g])[1..] == grants[1..] + [g];
    }
  }

  /** Only the resource may differ from what it was in its grants. */
  ghost predicate SameButGrants(was: Resource, r: Resource) {
    r == was.(grants := r.grants)
  }

  /** Who may delete, and that only the resource goes, and with a workflow the access granted to it. */
  lemma DeleteStoresWhatIsDue(caller: Option<Subject>, store: Resources, self: Ref)
    ensures var d := DeleteSpec(caller, store, self);
            && (self !in store ==> d == Ok(store))
            && (self in store && !CanSee(caller, store[self]) ==> d == Err(ResourceNotFound))
            && (self in store && CanSee(caller, store[self]) && !CanManage(caller, store[self]) ==> d == Err(NotOwner))
            && (self in store && CanManage(caller, store[self]) ==>
                  && d.Ok? && d.value.Keys == store.Keys - {self}
                  && (!self.kind.Workflow? ==> d.value == store - {self})
                  && (forall r :: r in d.value ==> SameButGrants(store[r], d.value[r]))
                  && (forall r, g :: r in d.value ==>
                        GrantTo(d.value[r].grants, g) ==
                          if self.kind.Workflow? && !r.kind.Script? && g == OneWorkflow(self.id) then None
                          else GrantTo(store[r].grants, g)))
  {
    hide CanSee, CanManage, GrantTo, WithoutGrantee;
    RightsNest(caller, self.kind, if self in store then store[self] else Resource(Public, "", "", [], Content([], {}, {}, "")));
    forall r, g | r in store
      ensures GrantTo(WithoutGrantee(store[r].grants, OneWorkflow(self.id)), g) ==
                if g == OneWorkflow(self.id) then None else GrantTo(store[r].grants, g)
    {
      OthersKeepAccess(store[r].grants, OneWorkflow(self.id), g);
    }
  }

  /** Why the grantee cannot be given the resource; None when it can. */
  ghost function Unfit(dir: Directory, store: Resources, self: Ref, grantee: Grantee, access: Access): Option<Error>
    requires self in store
  {
    var r := store[self];
    match grantee
    case User(u) =>
      if u == r.owner then Some(GrantConflict)
      else if u !in dir.members then Some(GrantInvalid)
      else if r.scope == Team && r.team != "" && dir.members[u] == r.team then Some(GrantConflict)
      else None
    case OneWorkflow(w) =>
      if access == ReadWrite && self.kind != DataSource then Some(GrantInvalid)
      else if self == Ref(Workflow, w) then Some(GrantConflict)
      else if Ref(Workflow, w) !in store then Some(GrantInvalid)
      else if ScopeAllows(dir, store[Ref(Workflow, w)], r) then Some(GrantConflict)
      else None
  }

  /** Who may grant what to whom, and that the grantee then has that access, and everybody else what they had. */
  lemma GrantStoresWhatIsDue(dir: Directory, caller: Option<Subject>, store: Resources, self: Ref, grantee: Grantee, access: Access, newId: string)
    ensures var d := GrantSpec(dir, caller, store, self, grantee, access, newId);
            && (self.kind.Script? ==> d == Err(GrantInvalid))
            && (!self.kind.Script? && (self !in store || !CanSee(caller, store[self])) ==> d == Err(ResourceNotFound))
            && (!self.kind.Script? && self in store && CanSee(caller, store[self]) ==>
                  && (!CanChangeVisibility(caller, store[self]) ==> d == Err(NotOwner))
                  && (CanChangeVisibility(caller, store[self]) ==>
                        var problem := if grantee.id == "" then Some(GrantInvalid)
                                       else if store[self].scope == Public then Some(GrantConflict)
                                       else Unfit(dir, store, self, grantee, access);
                        && (problem.Some? ==> d == Err(problem.value))
                        && (problem.None? ==>
                              && d.Ok? && self in d.value && d.value == store[self := d.value[self]]
                              && SameButGrants(store[self], d.value[self])
                              && forall g :: GrantTo(d.value[self].grants, g) ==
                                   if g == grantee then Some(access) else GrantTo(store[self].grants, g))))
  {
    hide CanSee, CanChangeVisibility, GrantTo, ScopeAllows, WithoutGrantee;
    if self in store {
      var others := WithoutGrantee(store[self].grants, grantee);
      forall g
        ensures GrantTo(others + [Grant(newId, grantee, access)], g) ==
                  if g != grantee then GrantTo(store[self].grants, g) else if grantee.id != "" then Some(access) else None
      {
        OthersKeepAccess(store[self].grants, grantee, g);
        LastIsAdded(others, Grant(newId, grantee, access), g);
      }
      UnfitIsProblem(dir, store, self, grantee, access);
    }
  }

  lemma UnfitIsProblem(dir: Directory, store: Resources, self: Ref, grantee: Grantee, access: Access)
    requires self in store
    ensures Unfit(dir, store, self, grantee, access) ==
              match grantee
              case User(u) => UserProblem(dir, store[self], u)
              case OneWorkflow(w) => WorkflowProblem(dir, store, self, access, w)
  {
    hide ScopeAllows;
    assert access.Read? || access.ReadWrite?;
  }

  // ---- Safety over whole runs ----

  /** Every stored reference that is neither dangling nor to itself is allowed. */
  ghost predicate ReferenceSafe(dir: Directory, store: Resources) {
    forall a, b :: a in store && b in store && a != b && b in References(a.kind, store[a]) ==>
      Allows(dir, a, store[a], store[b])
  }

  /** Every resource hidden from somebody has an owner, and every team resource a team. */
  ghost predicate Owned(store: Resources) {
    forall r :: r in store && store[r].scope != Public ==>
      store[r].owner != "" && (store[r].scope == Team ==> store[r].team != "")
  }

  datatype Step =
    | Create(caller: Subject, self: Ref, draft: Draft)
    | Update(caller: Subject, self: Ref, draft: Draft)
    | Delete(caller: Subject, self: Ref)
    | Share(caller: Subject, self: Ref, grantee: Grantee, access: Access, newId: string)

  ghost function Outcome(dir: Directory, store: Resources, step: Step): Result<Resources> {
    match step
    case Create(caller, self, draft) => CreateSpec(dir, Some(caller), store, self, draft)
    case Update(caller, self, draft) => UpdateSpec(dir, Some(caller), store, self, draft)
    case Delete(caller, self) => DeleteSpec(Some(caller), store, self)
    case Share(caller, self, grantee, access, newId) => GrantSpec(dir, Some(caller), store, self, grantee, access, newId)
  }

  /** The store after a step; a refused step changes nothing. */
  ghost function After(dir: Directory, store: Resources, step: Step): Resources {
    var r := Outcome(dir, store, step);
    if r.Ok? then r.value else store
  }

  ghost function Run(dir: Directory, store: Resources, steps: seq<Step>): Resources {
    if steps == [] then store else After(dir, Run(dir, store, steps[..|steps| - 1]), steps[|steps| - 1])
  }

  /** Every accepted create or update stores what is due, at its own id and nowhere else. */
  lemma StepStoresWhatIsDue(dir: Directory, store: Resources, step: Step)
    requires (step.Create? || step.Update?) && Outcome(dir, store, step).Ok?
    ensures var t := After(dir, store, step);
            && step.self in t && t == store[step.self := t[step.self]]
            && IsDue(Some(step.caller), store, step.self, step.draft, t[step.self])
  {
    hide PrepareSpec, IsDue;
    SaveStoresWhatIsDue(dir, Some(step.caller), store, step.self, step.draft);
  }

  /** Putting `r` at `self` keeps the store safe exactly when its own references and its referrers allow it. */
  lemma ReplaceIsSafe(dir: Directory, store: Resources, self: Ref, r: Resource)
    requires ReferenceSafe(dir, store)
    ensures ReferenceSafe(dir, store[self := r]) <==>
            && (forall t :: t in References(self.kind, r) && t in store && t != self ==> Allows(dir, self, r, store[t]))
            && NarrowingAllowed(dir, store, self, r)
  {
    var after := store[self := r];
    if ReferenceSafe(dir, after) {
      forall t | t in References(self.kind, r) && t in store && t != self
        ensures Allows(dir, self, r, store[t])
      {
        assert self in after && t in after;
      }
      forall q | q in store && (q.kind.Workflow? || (q.kind.Agent? && self.kind.DataSource?))
        ensures ReferrerContent(dir, store, self, r, q)
      {
        if q != self && self in References(q.kind, store[q]) {
          assert q in after && self in after;
        }
      }
    } else {
      var a, b :| a in after && b in after && a != b && b in References(a.kind, after[a]) && !Allows(dir, a, after[a], after[b]);
      if a != self && b == self {
        assert !ReferrerContent(dir, store, self, r, a);
      }
    }
  }

  /** A save that does not narrow breaks no referrer, as long as what was stored had an owner. */
  lemma NotNarrowingIsSafe(dir: Directory, store: Resources, self: Ref, r: Resource, existing: Option<Resource>)
    requires ReferenceSafe(dir, store) && Owned(store)
    requires existing == if self in store then Some(store[self]) else None
    requires !Narrows(existing, r)
    requires existing.Some? ==> r.owner == existing.value.owner || existing.value.owner == ""
    requires existing.Some? && Grantable(self.kind) ==> r.grants == existing.value.grants
    requires !Grantable(self.kind) && existing.Some? ==> existing.value.grants == []
    requires r.scope == Team ==> r.team != ""
    ensures NarrowingAllowed(dir, store, self, r)
  {
    forall q | q in store && (q.kind.Workflow? || (q.kind.Agent? && self.kind.DataSource?))
      ensures ReferrerContent(dir, store, self, r, q)
    {
      if q != self && self in References(q.kind, store[q]) && self in store {
        assert Allows(dir, q, store[q], store[self]);
      }
    }
  }

  /** Scripts carry no grants. */
  ghost predicate ScriptsUngranted(store: Resources) {
    forall r :: r in store && !Grantable(r.kind) ==> store[r].grants == []
  }

  ghost predicate Invariant(dir: Directory, store: Resources) {
    ReferenceSafe(dir, store) && Owned(store) && ScriptsUngranted(store)
  }

  lemma SaveKeepsInvariant(dir: Directory, store: Resources, s: Subject, self: Ref, draft: Draft)
    requires Invariant(dir, store) && s.id != ""
    ensures var p := PrepareSpec(dir, Some(s), store, self, draft);
            p.Ok? ==> Invariant(dir, store[self := p.value])
  {
    var existing := if self in store then Some(store[self]) else None;
    var p := PrepareSpec(dir, Some(s), store, self, draft);
    if p.Ok? {
      var r := p.value;
      if !Narrows(existing, r) {
        NotNarrowingIsSafe(dir, store, self, r, existing);
      }
      forall t | t in References(self.kind, r) && t in store && t != self
        ensures Allows(dir, self, r, store[t])
      {
        assert ReferenceAllowed(dir, Some(s), store, self, r, KeptReferences(self.kind, existing), t);
      }
      ReplaceIsSafe(dir, store, self, r);
    }
  }

  lemma DeleteKeepsInvariant(dir: Directory, store: Resources, s: Subject, self: Ref)
    requires Invariant(dir, store)
    ensures Invariant(dir, After(dir, store, Delete(s, self)))
  {
    var after := After(dir, store, Delete(s, self));
    if after != store {
      forall a, b | a in after && b in after && a != b && b in References(a.kind, after[a])
        ensures Allows(dir, a, after[a], after[b])
      {
        assert Allows(dir, a, store[a], store[b]);
        if self.kind.Workflow? {
          DroppedGrantUnused(dir, store, self, a, b);
        }
      }
    }
  }

  /** A grant to the deleted workflow never was what another resource relied on. */
  lemma DroppedGrantUnused(dir: Directory, store: Resources, self: Ref, a: Ref, b: Ref)
    requires a in store && b in store && a != self && self.kind.Workflow?
    requires Allows(dir, a, store[a], store[b])
    ensures var after := GrantsDropped(store, self.id);
            Allows(dir, a, after[a], after[b])
  {
    var after := GrantsDropped(store, self.id);
    GrantedWhenListed(store[b].grants, OneWorkflow(a.id));
    GrantedWhenListed(store[b].grants, User(store[a].owner));
    GrantedWhenListed(after[b].grants, OneWorkflow(a.id));
    GrantedWhenListed(after[b].grants, User(store[a].owner));
  }

  /** A resource's own grants say nothing about what it may use. */
  lemma OwnGrantsIrrelevant(dir: Directory, store: Resources, self: Ref, grants: seq<Grant>)
    requires ReferenceSafe(dir, store) && self in store
    ensures var r := store[self].(grants := grants);
            forall t :: t in References(self.kind, r) && t in store && t != self ==> Allows(dir, self, r, store[t])
  {
    var r := store[self].(grants := grants);
    forall t | t in References(self.kind, r) && t in store && t != self
      ensures Allows(dir, self, r, store[t])
    {
      assert t in References(self.kind, store[self]);
      assert Allows(dir, self, store[self], store[t]);
    }
  }

  lemma GrantKeepsInvariant(dir: Directory, store: Resources, s: Subject, self: Ref, grantee: Grantee, access: Access, newId: string)
    requires Invariant(dir, store)
    ensures Invariant(dir, After(dir, store, Share(s, self, grantee, access, newId)))
  {
    if GrantSpec(dir, Some(s), store, self, grantee, access, newId).Ok? {
      hide Allows, ReferenceSafe;
      var grant := Grant(newId, grantee, access);
      var grants := WithoutGrantee(store[self].grants, grantee) + [grant];
      OwnGrantsIrrelevant(dir, store, self, grants);
      forall q | q in store && (q.kind.Workflow? || (q.kind.Agent? && self.kind.DataSource?))
        ensures ReferrerContent(dir, store, self, store[self].(grants := grants), q)
      {
        if q != self && self in References(q.kind, store[q]) {
          AddedGrantStillAllows(dir, q, store[q], store[self], grant);
        }
      }
      ReplaceIsSafe(dir, store, self, store[self].(grants := grants));
    }
  }

  /** Granting, or changing the level of a grant, takes nothing away. */
  lemma AddedGrantStillAllows(dir: Directory, a: Ref, u: Resource, used: Resource, g: Grant)
    requires Allows(dir, a, u, used)
    ensures Allows(dir, a, u, used.(grants := WithoutGrantee(used.grants, g.grantee) + [g]))
  {
    var more := used.(grants := WithoutGrantee(used.grants, g.grantee) + [g]);
    GrantedWhenListed(used.grants, OneWorkflow(a.id));
    GrantedWhenListed(used.grants, User(u.owner));
    GrantedWhenListed(more.grants, OneWorkflow(a.id));
    GrantedWhenListed(more.grants, User(u.owner));
  }

  /**
   Store-wide reference safety: from a safe store, any sequence of authenticated
   creates, updates, deletes and grants, accepted or refused, leaves a safe store.
   */
  lemma {:induction false} RunsStaySafe(dir: Directory, store: Resources, steps: seq<Step>)
    requires Invariant(dir, store)
    requires forall i :: 0 <= i < |steps| ==> steps[i].caller.id != ""
    ensures Invariant(dir, Run(dir, store, steps))
  {
    if steps != [] {
      var k := |steps| - 1;
      RunsStaySafe(dir, store, steps[..k]);
      var before := Run(dir, store, steps[..k]);
      match steps[k]
      case Create(s, self, draft) => SaveKeepsInvariant(dir, before, s, self, draft);
      case Update(s, self, draft) => SaveKeepsInvariant(dir, before, s, self, draft);
      case Delete(s, self) => DeleteKeepsInvariant(dir, before, s, self);
      case Share(s, self, grantee, access, newId) => GrantKeepsInvariant(dir, before, s, self, grantee, access, newId);
    }
  }

  // ---- Who a step can affect ----

  /** The step deletes a workflow, and with it the grants made to that workflow. */
  ghost predicate DropsGrants(step: Step, store: Resources) {
    step.Delete? && step.self.kind.Workflow? && step.self in store
  }

  /** To a caller who cannot see a resource it does not exist: no step of theirs changes or removes it. */
  lemma HiddenIsUntouched(dir: Directory, store: Resources, step: Step, r: Ref)
    requires r in store && !CanSee(Some(step.caller), store[r])
    ensures var after := After(dir, store, step);
            && r in after
            && after[r] == if DropsGrants(step, store) && r in GrantsDropped(store, step.self.id) && after != store
                           then GrantsDropped(store, step.self.id)[r] else store[r]
  {
  }

  /** Each kind of change a step makes to a stored resource is one its caller was entitled to. */
  lemma ChangesAreEntitled(dir: Directory, store: Resources, step: Step, r: Ref)
    requires r in store
    ensures var caller, was := Some(step.caller), store[r];
            var after := After(dir, store, step);
            if r !in after then step.Delete? && step.self == r && CanManage(caller, was)
            else
              var now := after[r];
              && (now.scope != was.scope || TeamOf(now) != TeamOf(was) ==> CanChangeVisibility(caller, was))
              && (now.content != was.content ==> CanEdit(caller, r.kind, was))
              && (now.owner != was.owner ==> was.owner == "" && now.owner == step.caller.id)
              && (now.grants != was.grants && Grantable(r.kind) && !DropsGrants(step, store) ==>
                    step.Share? && CanChangeVisibility(caller, was))
  {
  }

  // ---- What the guarantee does not cover ----

  function WithoutGrant(grants: seq<Grant>, id: string): seq<Grant> {
    if grants == [] then []
    else (if grants[0].id != id then [grants[0]] else []) + WithoutGrant(grants[1..], id)
  }

  /** `revoke` (app/application/grants.py:206-214), once the caller may share the resource. */
  function Revoked(store: Resources, self: Ref, grantId: string): Resources
    requires self in store
  {
    store[self := store[self].(grants := WithoutGrant(store[self].grants, grantId))]
  }

  /** Revoking keeps the store safe exactly when the narrowing check, which it does not make, would have passed. */
  lemma RevokeIsSafeExactlyWhenNarrowing(dir: Directory, store: Resources, self: Ref, grantId: string)
    requires Invariant(dir, store) && self in store
    ensures ReferenceSafe(dir, Revoked(store, self, grantId)) <==>
            NarrowingAllowed(dir, store, self, Revoked(store, self, grantId)[self])
  {
    hide Allows, WithoutGrant, NarrowingAllowed, ReferenceSafe;
    var grants := WithoutGrant(store[self].grants, grantId);
    OwnGrantsIrrelevant(dir, store, self, grants);
    ReplaceIsSafe(dir, store, self, store[self].(grants := grants));
  }

  /** Revoking a grant a workflow relies on leaves it using what it may no longer use. */
  lemma RevokeCanStrandAReferrer()
    ensures var dir := Directory(map["ann" := "", "bob" := ""], {});
            var source := Ref(DataSource, "s");
            var flow := Ref(Workflow, "w");
            var store := map[
              source := Resource(Private, "ann", "", [Grant("g", User("bob"), Read)], Content([], {}, {}, "")),
              flow := Resource(Private, "bob", "", [], Content([source], {}, {}, ""))];
            && Invariant(dir, store)
            && !ReferenceSafe(dir, Revoked(store, source, "g"))
  {
    var dir := Directory(map["ann" := "", "bob" := ""], {});
    var source, flow := Ref(DataSource, "s"), Ref(Workflow, "w");
    var store := map[
      source := Resource(Private, "ann", "", [Grant("g", User("bob"), Read)], Content([], {}, {}, "")),
      flow := Resource(Private, "bob", "", [], Content([source], {}, {}, ""))];
    assert GrantTo(store[source].grants, User("bob")) == Some(Read);
    assert Allows(dir, flow, store[flow], store[source]);
    assert References(Workflow, store[flow]) == [source] && References(DataSource, store[source]) == [];
    var after := Revoked(store, source, "g");
    assert "ann" != "bob";
    assert after[source].grants == [];
    assert source in References(Workflow, after[flow]);
    assert !Allows(dir, flow, after[flow], after[source]);
  }
}
