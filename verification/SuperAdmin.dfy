/**
  Roles, role assignments, members and invitations of the tenants, and what protects a
  tenant's SuperAdmin.

  An optional role name that arrives empty counts as absent, as the request's validation
  makes it. Each request is one atomic step; a refused request changes nothing.
*/
module SuperAdmin {
  import opened Wrappers

  type Id = nat
  type UserId = nat
  type Tenant = nat
  type Time = int

  const SUPER_ADMIN: string := "SuperAdmin"

  datatype Role = Role(name: string, tenant: Tenant, permissions: set<string>)

  datatype Assignment = Assignment(userId: UserId, roleId: Id, tenant: Tenant, locationId: Option<Id>)

  datatype InvitationStatus = Pending | Accepted | Declined | Expired | Cancelled

  datatype Invitation = Invitation(email: string, tenant: Tenant, roleId: Option<Id>, status: InvitationStatus,
                                   expiresAt: Option<Time>)

  datatype Access = Access(
    tenants: set<Tenant>, roles: map<Id, Role>, assignments: map<Id, Assignment>,
    members: set<(UserId, Tenant)>, invitations: map<Id, Invitation>)

  datatype Error =
    | NotFound
    | NameTaken
    | ProtectedRole
    | LocationMismatch
    | AlreadyAssigned
    | LastSuperAdmin
    | IsSuperAdmin
    | EmailMismatch
    | InvitationExpired(after: Access)  // the expiry is recorded although the request fails
    | NotPending
    | HasStock

  datatype Scope = TenantWide | AtLocation

  predicate Protected(name: string) { name == SUPER_ADMIN }

  predicate NameUsed(s: Access, name: string, tenant: Tenant, except: Option<Id>) {
    exists r <- s.roles :: s.roles[r].name == name && s.roles[r].tenant == tenant && Some(r) != except
  }

  // ----- Requests -----------------------------------------------------------------------------

  datatype Request =
    | CreateTenant(owner: UserId, newTenant: Tenant, adminRoleId: Id, assignmentId: Id, permissions: set<string>)
    | CreateRole(tenant: Tenant, roleId: Id, name: string, permissions: set<string>)
    | UpdateRole(tenant: Tenant, roleId: Id, newName: Option<string>, newPermissions: Option<set<string>>)
    | RemoveRole(tenant: Tenant, roleId: Id)
    | Assign(tenant: Tenant, roleId: Id, userId: UserId, userKnown: bool, scope: Scope, locationId: Option<Id>,
             locationKnown: bool, assignmentId: Id)
    | Unassign(tenant: Tenant, roleId: Id, userId: UserId, locationId: Option<Id>)
    | RemoveMember(tenant: Tenant, userId: UserId)
    | Invite(tenant: Tenant, invitationId: Id, email: string, invitedRole: Option<Id>, expiresAt: Option<Time>)
    | Accept(userId: UserId, email: string, invitationId: Id, now: Time, assignmentId: Id)
    | Decline(invitationId: Id, now: Time)
    | CancelInvitation(tenant: Tenant, invitationId: Id)
    | RemoveLocation(location: Id, locationExists: bool, hasStock: bool)

  predicate OwnRole(s: Access, tenant: Tenant, roleId: Id) {
    roleId in s.roles && s.roles[roleId].tenant == tenant
  }

  /** `createTenant`: the tenant's SuperAdmin role, assigned to its creator. */
  function TenantCreated(s: Access, r: Request): Result<Access, Error>
    requires r.CreateTenant?
  {
    if r.newTenant in s.tenants || r.adminRoleId in s.roles || r.assignmentId in s.assignments then Err(NotFound)
    else Ok(Access(s.tenants + {r.newTenant}, s.roles[r.adminRoleId := Role(SUPER_ADMIN, r.newTenant, r.permissions)],
                   s.assignments[r.assignmentId := Assignment(r.owner, r.adminRoleId, r.newTenant, None)],
                   s.members + {(r.owner, r.newTenant)}, s.invitations))
  }

  function RoleUpdated(s: Access, r: Request): Result<Access, Error>
    requires r.UpdateRole?
  {
    if !OwnRole(s, r.tenant, r.roleId) then Err(NotFound)
    else
      var role := s.roles[r.roleId];
      var name := if r.newName.Some? && r.newName.value != "" then r.newName.value else role.name;
      if Protected(role.name) && (name != role.name || r.newPermissions.Some?) then Err(ProtectedRole)
      else if NameUsed(s, name, role.tenant, Some(r.roleId)) then Err(NameTaken)
      else Ok(s.(roles := s.roles[r.roleId :=
                role.(name := name, permissions := OrElse(r.newPermissions, role.permissions))]))
  }

  /** Deleting a role deletes its assignments and clears it from invitations. */
  function RoleRemoved(s: Access, r: Request): Result<Access, Error>
    requires r.RemoveRole?
  {
    if !OwnRole(s, r.tenant, r.roleId) then Err(NotFound)
    else if Protected(s.roles[r.roleId].name) then Err(ProtectedRole)
    else Ok(s.(roles := s.roles - {r.roleId},
               assignments := map a <- s.assignments | s.assignments[a].roleId != r.roleId :: s.assignments[a],
               invitations := map i <- s.invitations ::
                 if s.invitations[i].roleId == Some(r.roleId)
                 then s.invitations[i].(roleId := None)
                 else s.invitations[i]))
  }

  /** A unique key on user, role, tenant and location; the database never equates two missing locations. */
  function UserAssigned(s: Access, r: Request): Result<Access, Error>
    requires r.Assign?
  {
    if !OwnRole(s, r.tenant, r.roleId) || !r.userKnown || r.assignmentId in s.assignments then Err(NotFound)
    else if (r.scope == AtLocation) != r.locationId.Some? then Err(LocationMismatch)
    else if r.locationId.Some? && !r.locationKnown then Err(NotFound)
    else
      var a := Assignment(r.userId, r.roleId, r.tenant, r.locationId);
      if r.locationId.Some? && (exists x <- s.assignments :: s.assignments[x] == a) then Err(AlreadyAssigned)
      else Ok(s.(assignments := s.assignments[r.assignmentId := a]))
  }

  predicate HeldByAnother(s: Access, roleId: Id, tenant: Tenant, user: UserId) {
    exists a <- s.assignments :: s.assignments[a].roleId == roleId && s.assignments[a].tenant == tenant
        && s.assignments[a].userId != user
  }

  function UserUnassigned(s: Access, r: Request): Result<Access, Error>
    requires r.Unassign?
  {
    var gone := Assignment(r.userId, r.roleId, r.tenant, r.locationId);
    if r.roleId in s.roles && Protected(s.roles[r.roleId].name) && !HeldByAnother(s, r.roleId, r.tenant, r.userId)
    then Err(LastSuperAdmin)
    else if !exists a <- s.assignments :: s.assignments[a] == gone then Err(NotFound)
    else Ok(s.(assignments := map a <- s.assignments | s.assignments[a] != gone :: s.assignments[a]))
  }

  predicate IsAdmin(s: Access, user: UserId, tenant: Tenant) {
    exists a <- s.assignments ::
      var x := s.assignments[a];
      x.userId == user && x.tenant == tenant && x.roleId in s.roles && Protected(s.roles[x.roleId].name)
  }

  function MemberRemoved(s: Access, r: Request): Result<Access, Error>
    requires r.RemoveMember?
  {
    if r.tenant !in s.tenants || (r.userId, r.tenant) !in s.members then Err(NotFound)
    else if IsAdmin(s, r.userId, r.tenant) then Err(IsSuperAdmin)
    else Ok(s.(assignments := map a <- s.assignments
                 | !(s.assignments[a].userId == r.userId && s.assignments[a].tenant == r.tenant) :: s.assignments[a],
               members := s.members - {(r.userId, r.tenant)}))
  }

  /** Expiry is checked before the status, and recorded whatever the status was. */
  function InvitationAccepted(s: Access, r: Request): Result<Access, Error>
    requires r.Accept?
  {
    if r.invitationId !in s.invitations then Err(NotFound)
    else
      var i := s.invitations[r.invitationId];
      if r.email != i.email then Err(EmailMismatch)
      else if i.expiresAt.Some? && i.expiresAt.value < r.now then
        Err(InvitationExpired(s.(invitations := s.invitations[r.invitationId := i.(status := Expired)])))
      else if i.status != Pending || r.assignmentId in s.assignments then Err(NotPending)
      else
        var joined := s.(invitations := s.invitations[r.invitationId := i.(status := Accepted)],
                         members := s.members + {(r.userId, i.tenant)});
        Ok(if i.roleId.Some?
           then joined.(assignments := s.assignments[r.assignmentId :=
                                                     Assignment(r.userId, i.roleId.value, i.tenant, None)])
           else joined)
  }

  /** Whoever has the token may decline; here too expiry comes first and is recorded whatever the status was. */
  function InvitationDeclined(s: Access, r: Request): Result<Access, Error>
    requires r.Decline?
  {
    if r.invitationId !in s.invitations then Err(NotFound)
    else
      var i := s.invitations[r.invitationId];
      if i.expiresAt.Some? && i.expiresAt.value < r.now then
        Err(InvitationExpired(s.(invitations := s.invitations[r.invitationId := i.(status := Expired)])))
      else if i.status != Pending then Err(NotPending)
      else Ok(s.(invitations := s.invitations[r.invitationId := i.(status := Declined)]))
  }

  /** The tenant may cancel whatever was neither accepted nor cancelled, declined and expired ones too. */
  function InvitationCancelled(s: Access, r: Request): Result<Access, Error>
    requires r.CancelInvitation?
  {
    if r.invitationId !in s.invitations || s.invitations[r.invitationId].tenant != r.tenant then Err(NotFound)
    else
      var i := s.invitations[r.invitationId];
      if i.status == Accepted || i.status == Cancelled then Err(NotPending)
      else Ok(s.(invitations := s.invitations[r.invitationId := i.(status := Cancelled)]))
  }

  /** Deleting a location deletes the assignments made for it. */
  function LocationRemoved(s: Access, r: Request): Result<Access, Error>
    requires r.RemoveLocation?
  {
    if !r.locationExists then Err(NotFound)
    else if r.hasStock then Err(HasStock)
    else Ok(s.(assignments := map a <- s.assignments | s.assignments[a].locationId != Some(r.location) ::
               s.assignments[a]))
  }

  function Outcome(s: Access, r: Request): Result<Access, Error> {
    match r
    case CreateTenant(_, _, _, _, _) => TenantCreated(s, r)
    case CreateRole(tenant, roleId, name, permissions) =>
      if roleId in s.roles then Err(NotFound)
      else if NameUsed(s, name, tenant, None) then Err(NameTaken)
      else Ok(s.(roles := s.roles[roleId := Role(name, tenant, permissions)]))
    case UpdateRole(_, _, _, _) => RoleUpdated(s, r)
    case RemoveRole(_, _) => RoleRemoved(s, r)
    case Assign(_, _, _, _, _, _, _, _) => UserAssigned(s, r)
    case Unassign(_, _, _, _) => UserUnassigned(s, r)
    case RemoveMember(_, _) => MemberRemoved(s, r)
    case Invite(tenant, id, email, role, expiresAt) =>
      if tenant !in s.tenants || id in s.invitations || (role.Some? && !OwnRole(s, tenant, role.value))
      then Err(NotFound)
      else Ok(s.(invitations := s.invitations[id := Invitation(email, tenant, role, Pending, expiresAt)]))
    case Accept(_, _, _, _, _) => InvitationAccepted(s, r)
    case Decline(_, _) => InvitationDeclined(s, r)
    case CancelInvitation(_, _) => InvitationCancelled(s, r)
    case RemoveLocation(_, _, _) => LocationRemoved(s, r)
  }

  function Step(s: Access, r: Request): Access {
    match Outcome(s, r)
    case Ok(after) => after
    case Err(InvitationExpired(after)) => after
    case Err(_) => s
  }

  function Run(s: Access, requests: seq<Request>): Access {
    if requests == [] then s else Step(Run(s, requests[..|requests| - 1]), requests[|requests| - 1])
  }

  // ----- The guarantee ------------------------------------------------------------------------------

  /** The assignment gives its user the tenant's SuperAdmin role. */
  predicate Administers(s: Access, a: Id, tenant: Tenant) {
    && a in s.assignments && s.assignments[a].tenant == tenant
    && s.assignments[a].roleId in s.roles && Protected(s.roles[s.assignments[a].roleId].name)
  }

  /** Some user holds the tenant's SuperAdmin role. */
  predicate HasSuperAdmin(s: Access, tenant: Tenant) { exists a <- s.assignments :: Administers(s, a, tenant) }

  /** The one way to lose the last: deleting the location all of the tenant's SuperAdmins are assigned for. */
  predicate Orphans(s: Access, r: Request, tenant: Tenant) {
    && r.RemoveLocation? && r.locationExists && !r.hasStock
    && forall a <- s.assignments | Administers(s, a, tenant) :: s.assignments[a].locationId == Some(r.location)
  }

  lemma SurvivesUnlessUnassigned(s: Access, r: Request, a: Id, tenant: Tenant)
    requires Administers(s, a, tenant) && !(r.Unassign? && Outcome(s, r).Ok?)
    requires !(r.RemoveLocation? && Outcome(s, r).Ok? && s.assignments[a].locationId == Some(r.location))
    ensures Administers(Step(s, r), a, tenant)
  {
    var x := s.assignments[a];
    if r.RemoveMember? && x.userId == r.userId && x.tenant == r.tenant { assert IsAdmin(s, r.userId, r.tenant); }
  }

  lemma UnassignLeavesAnother(s: Access, r: Request, a: Id, tenant: Tenant)
    requires r.Unassign? && Outcome(s, r).Ok? && Administers(s, a, tenant)
    ensures HasSuperAdmin(Step(s, r), tenant)
  {
    var gone := Assignment(r.userId, r.roleId, r.tenant, r.locationId);
    if s.assignments[a] == gone {
      var b :| b in s.assignments && s.assignments[b].roleId == r.roleId && s.assignments[b].tenant == r.tenant
               && s.assignments[b].userId != r.userId;
      assert Administers(Step(s, r), b, tenant);
    } else {
      assert Administers(Step(s, r), a, tenant);
    }
  }

  /** Exactly when one request takes a tenant's last SuperAdmin. */
  lemma StepKeepsSuperAdminIff(s: Access, r: Request, tenant: Tenant)
    requires HasSuperAdmin(s, tenant)
    ensures HasSuperAdmin(Step(s, r), tenant) <==> !Orphans(s, r, tenant)
  {
    if !Orphans(s, r, tenant) {
      var a :| Administers(s, a, tenant)
               && !(r.RemoveLocation? && Outcome(s, r).Ok? && s.assignments[a].locationId == Some(r.location));
      if r.Unassign? && Outcome(s, r).Ok? {
        UnassignLeavesAnother(s, r, a, tenant);
      } else {
        SurvivesUnlessUnassigned(s, r, a, tenant);
      }
    }
  }

  /**
    A tenant that has a SuperAdmin keeps one through every run of role, assignment, member
    and invitation requests, and of location deletions that leave one, and never loses it in between.
  */
  lemma {:induction false} EveryRunKeepsSuperAdmin(s: Access, requests: seq<Request>, tenant: Tenant)
    requires HasSuperAdmin(s, tenant)
    requires forall n | 0 <= n < |requests| && requests[n].RemoveLocation? ::
        !Orphans(Run(s, requests[..n]), requests[n], tenant)
    ensures HasSuperAdmin(Run(s, requests), tenant)
    decreases |requests|
  {
    if requests != [] {
      var n := |requests| - 1;
      forall m | 0 <= m < n && requests[..n][m].RemoveLocation?
        ensures !Orphans(Run(s, requests[..n][..m]), requests[..n][m], tenant)
      {
        assert requests[..n][..m] == requests[..m];
      }
      EveryRunKeepsSuperAdmin(s, requests[..n], tenant);
      StepKeepsSuperAdminIff(Run(s, requests[..n]), requests[n], tenant);
    }
  }

  /** Every tenant created by the service has a SuperAdmin from then on, as long as no location takes it along. */
  lemma CreatedTenantsHaveSuperAdmin(s: Access, r: Request, requests: seq<Request>)
    requires r.CreateTenant? && Outcome(s, r).Ok?
    requires forall n | 0 <= n < |requests| :: !Orphans(Run(Step(s, r), requests[..n]), requests[n], r.newTenant)
    ensures HasSuperAdmin(Run(Step(s, r), requests), r.newTenant)
  {
    assert Administers(Step(s, r), r.assignmentId, r.newTenant);
    EveryRunKeepsSuperAdmin(Step(s, r), requests, r.newTenant);
  }

  /**
    One such loss: the last tenant-wide SuperAdmin may be unassigned while another is
    assigned for a location, and then the location goes.
  */
  lemma SuperAdminLostWithLocation(s: Access, wide: Request, gone: Request, local: Id)
    requires wide.Unassign? && wide.locationId == None && Outcome(s, wide).Ok?
    requires gone.RemoveLocation? && gone.locationExists && !gone.hasStock
    requires Administers(s, local, wide.tenant) && s.assignments[local].locationId == Some(gone.location)
    requires forall a <- s.assignments | Administers(s, a, wide.tenant) ::
               a == local || s.assignments[a] == Assignment(wide.userId, wide.roleId, wide.tenant, None)
    ensures HasSuperAdmin(Step(s, wide), wide.tenant) && !HasSuperAdmin(Step(Step(s, wide), gone), wide.tenant)
  {
    assert Administers(Step(s, wide), local, wide.tenant);
    forall a <- Step(s, wide).assignments | Administers(Step(s, wide), a, wide.tenant) ensures a == local {
      assert Administers(s, a, wide.tenant);
    }
  }

  lemma ProtectedRoleIsKept(s: Access, r: Request, roleId: Id)
    requires roleId in s.roles && Protected(s.roles[roleId].name)
    ensures roleId in Step(s, r).roles && Step(s, r).roles[roleId] == s.roles[roleId]
  {
  }

  /** No run renames, deletes or re-permissions a SuperAdmin role. */
  lemma {:induction false} ProtectedRolesAreFrozen(s: Access, requests: seq<Request>, roleId: Id)
    requires roleId in s.roles && Protected(s.roles[roleId].name)
    ensures roleId in Run(s, requests).roles && Run(s, requests).roles[roleId] == s.roles[roleId]
    decreases |requests|
  {
    if requests != [] {
      ProtectedRolesAreFrozen(s, requests[..|requests| - 1], roleId);
      ProtectedRoleIsKept(Run(s, requests[..|requests| - 1]), requests[|requests| - 1], roleId);
    }
  }

  predicate RoleHeld(s: Access, roleId: Id, tenant: Tenant) {
    exists a <- s.assignments :: s.assignments[a].roleId == roleId && s.assignments[a].tenant == tenant
  }

  function WithoutAssignment(s: Access, gone: Assignment): Access {
    s.(assignments := map a <- s.assignments | s.assignments[a] != gone :: s.assignments[a])
  }

  /** Unassigning a SuperAdmin is refused exactly when every holder of the role in the tenant is that user. */
  lemma UnassignRefusedIffSoleHolder(s: Access, r: Request)
    requires r.Unassign? && r.roleId in s.roles && Protected(s.roles[r.roleId].name)
    ensures Outcome(s, r) == Err(LastSuperAdmin)
       <==> forall a <- s.assignments | s.assignments[a].roleId == r.roleId && s.assignments[a].tenant == r.tenant ::
              s.assignments[a].userId == r.userId
  {
  }

  /**
    The refusal is needless exactly when that user holds the role a second time, at another
    location or tenant-wide: it would still be held.
  */
  lemma RefusalIsNeedlessIff(s: Access, r: Request)
    requires r.Unassign? && Outcome(s, r) == Err(LastSuperAdmin)
    ensures RoleHeld(WithoutAssignment(s, Assignment(r.userId, r.roleId, r.tenant, r.locationId)), r.roleId, r.tenant)
       <==> exists a <- s.assignments ::
              && s.assignments[a].userId == r.userId && s.assignments[a].roleId == r.roleId
              && s.assignments[a].tenant == r.tenant && s.assignments[a].locationId != r.locationId
  {
    var gone := Assignment(r.userId, r.roleId, r.tenant, r.locationId);
    var after := WithoutAssignment(s, gone);
    if a :| (a in after.assignments && after.assignments[a].roleId == r.roleId
             && after.assignments[a].tenant == r.tenant) {
      assert s.assignments[a] != gone && s.assignments[a].userId == r.userId;
    }
    if a :| a in s.assignments && s.assignments[a].userId == r.userId && s.assignments[a].roleId == r.roleId
            && s.assignments[a].tenant == r.tenant && s.assignments[a].locationId != r.locationId {
      assert after.assignments[a] == s.assignments[a];
    }
  }

  /** The invitation's time is up. */
  predicate Late(i: Invitation, now: Time) { i.expiresAt.Some? && i.expiresAt.value < now }

  /**
    ACCEPTED is not final: an accepted invitation is left exactly by accepting it again, or
    declining it, after its expiry; to decline it, nobody's address is compared.
  */
  lemma AcceptedIsLeftIffLate(s: Access, r: Request, i: Id)
    requires i in s.invitations && s.invitations[i].status == Accepted
    ensures i in Step(s, r).invitations
    ensures Step(s, r).invitations[i].status != Accepted
       <==> || (r.Accept? && r.invitationId == i && r.email == s.invitations[i].email && Late(s.invitations[i], r.now))
            || (r.Decline? && r.invitationId == i && Late(s.invitations[i], r.now))
  {
    if r.Decline? && r.invitationId == i { assert Outcome(s, r) == InvitationDeclined(s, r); }
  }

  predicate Answered(s: Access, i: Id) { i in s.invitations && s.invitations[i].status != Pending }

  /** Once answered, lapsed or cancelled, an invitation is never pending again in any run, and never accepted again. */
  lemma {:induction false} AnsweredForEver(s: Access, requests: seq<Request>, i: Id)
    requires Answered(s, i)
    ensures Answered(Run(s, requests), i)
    ensures forall r: Request | r.Accept? && r.invitationId == i :: Outcome(Run(s, requests), r).Err?
    decreases |requests|
  {
    if requests != [] {
      AnsweredForEver(s, requests[..|requests| - 1], i);
      StaysAnswered(Run(s, requests[..|requests| - 1]), requests[|requests| - 1], i);
    }
  }

  lemma StaysAnswered(s: Access, r: Request, i: Id)
    requires Answered(s, i)
    ensures Answered(Step(s, r), i) && !(r.Accept? && r.invitationId == i && Outcome(s, r).Ok?)
  {
  }

  // ----- What one request does ----------------------------------------------------------------------

  /** Which requests take an assignment away; none ever changes one. */
  lemma AssignmentLostIff(s: Access, r: Request, a: Id)
    requires a in s.assignments
    ensures a in Step(s, r).assignments ==> Step(s, r).assignments[a] == s.assignments[a]
    ensures var x := s.assignments[a];
            a !in Step(s, r).assignments
            <==> Outcome(s, r).Ok? && match r
                                      case RemoveRole(_, roleId) => x.roleId == roleId
                                      case Unassign(tenant, roleId, userId, locationId) =>
                                        x == Assignment(userId, roleId, tenant, locationId)
                                      case RemoveMember(tenant, userId) => x.userId == userId && x.tenant == tenant
                                      case RemoveLocation(location, _, _) => x.locationId == Some(location)
                                      case _ => false
  {
  }

  /**
    The assignment a request makes: in the tenant and for the location asked for, and for an
    invited role everywhere.
  */
  function Granted(s: Access, r: Request): Option<Assignment>
  {
    match r
    case CreateTenant(owner, newTenant, adminRoleId, _, _) => Some(Assignment(owner, adminRoleId, newTenant, None))
    case Assign(tenant, roleId, userId, _, _, locationId, _, _) =>
      Some(Assignment(userId, roleId, tenant, locationId))
    case Accept(userId, _, invitationId, _, _) =>
      if invitationId in s.invitations && s.invitations[invitationId].roleId.Some?
      then Some(Assignment(userId, s.invitations[invitationId].roleId.value, s.invitations[invitationId].tenant, None))
      else None
    case _ => None
  }

  lemma AssignmentGainedIff(s: Access, r: Request, a: Id)
    requires a !in s.assignments
    ensures a in Step(s, r).assignments
       <==> Outcome(s, r).Ok? && Granted(s, r).Some? && a == r.assignmentId
    ensures a in Step(s, r).assignments ==> Step(s, r).assignments[a] == Granted(s, r).value
  {
  }

  /** Who is a member afterwards: creators and those who accept join, only a removal parts. */
  lemma MembershipIs(s: Access, r: Request, user: UserId, tenant: Tenant)
    ensures (user, tenant) in Step(s, r).members
       <==> || ((user, tenant) in s.members
                && !(Outcome(s, r).Ok? && r.RemoveMember? && r.userId == user && r.tenant == tenant))
            || (Outcome(s, r).Ok? && r.CreateTenant? && r.owner == user && r.newTenant == tenant)
            || (Outcome(s, r).Ok? && r.Accept? && r.userId == user && s.invitations[r.invitationId].tenant == tenant)
  {
  }

  /**
    When a role can be assigned: one of the tenant's, the location given exactly when the
    scope asks for it, not twice.
  */
  lemma AssignAcceptedIff(s: Access, r: Request)
    requires r.Assign? && r.assignmentId !in s.assignments
    ensures Outcome(s, r).Ok?
       <==> && r.roleId in s.roles && s.roles[r.roleId].tenant == r.tenant && r.userKnown
            && (r.scope == AtLocation <==> r.locationId.Some?)
            && (r.locationId.Some? ==> r.locationKnown)
            && forall a <- s.assignments | r.locationId.Some? ::
                 s.assignments[a] != Assignment(r.userId, r.roleId, r.tenant, r.locationId)
  {
  }

  /**
    When an invitation can be accepted: by its addressee, in time, while it is pending. It
    is accepted then and no other changes.
  */
  lemma AcceptanceIsExact(s: Access, r: Request)
    requires r.Accept? && r.assignmentId !in s.assignments
    ensures Outcome(s, r).Ok?
       <==> && r.invitationId in s.invitations
            && var i := s.invitations[r.invitationId];
               i.email == r.email && !Late(i, r.now) && i.status == Pending
    ensures Outcome(s, r).Ok? ==>
              Step(s, r).invitations
              == s.invitations[r.invitationId := s.invitations[r.invitationId].(status := Accepted)]
  {
  }

  /**
    Whoever has the token may decline in time while it is pending; the tenant may cancel
    what is neither accepted nor cancelled.
  */
  lemma WithdrawalIsExact(s: Access, r: Request)
    requires r.Decline? || r.CancelInvitation?
    ensures Outcome(s, r).Ok?
       <==> && r.invitationId in s.invitations
            && var i := s.invitations[r.invitationId];
               if r.Decline? then !Late(i, r.now) && i.status == Pending
               else i.tenant == r.tenant && i.status in {Pending, Declined, Expired}
    ensures Outcome(s, r).Ok? ==>
              Step(s, r) == s.(invitations := s.invitations[r.invitationId :=
                s.invitations[r.invitationId].(status := if r.Decline? then Declined else Cancelled)])
  {
  }

  /** The tenant has a role of that name besides the given one. */
  predicate NameTakenBesides(s: Access, tenant: Tenant, name: string, roleId: Id) {
    exists x <- s.roles :: x != roleId && s.roles[x].tenant == tenant && s.roles[x].name == name
  }

  /**
    When roles can be made, changed and deleted: names are unique in a tenant, and its
    SuperAdmin role is protected.
  */
  lemma RoleRequestAcceptedIff(s: Access, r: Request)
    requires r.CreateRole? || r.UpdateRole? || r.RemoveRole?
    ensures var own := r.roleId in s.roles && s.roles[r.roleId].tenant == r.tenant;
            Outcome(s, r).Ok?
            <==> match r
                 case CreateRole(tenant, roleId, name, _) =>
                   roleId !in s.roles && !NameTakenBesides(s, tenant, name, roleId)
                 case UpdateRole(tenant, roleId, newName, newPermissions) =>
                   && own
                   && var role := s.roles[roleId];
                      var name := if newName in {None, Some("")} then role.name else newName.value;
                      && (role.name == "SuperAdmin" ==> name == role.name && newPermissions.None?)
                      && !NameTakenBesides(s, tenant, name, roleId)
                 case RemoveRole(_, roleId) => own && s.roles[roleId].name != "SuperAdmin"
                 case _ => false
  {
    match r
    case CreateRole(tenant, roleId, name, _) =>
      if roleId !in s.roles { NameUsedIff(s, tenant, name, roleId, None); }
    case UpdateRole(tenant, roleId, newName, _) =>
      if roleId in s.roles {
        NameUsedIff(s, tenant, if newName in {None, Some("")} then s.roles[roleId].name else newName.value, roleId,
                    Some(roleId));
      }
    case RemoveRole(_, _) =>
  }

  lemma NameUsedIff(s: Access, tenant: Tenant, name: string, roleId: Id, except: Option<Id>)
    requires except == Some(roleId) || (except == None && roleId !in s.roles)
    ensures NameUsed(s, name, tenant, except) <==> NameTakenBesides(s, tenant, name, roleId)
  {
    if NameUsed(s, name, tenant, except) {
      var x :| x in s.roles && s.roles[x].name == name && s.roles[x].tenant == tenant && Some(x) != except;
      assert x != roleId;
    }
    if x :| x in s.roles && x != roleId && s.roles[x].tenant == tenant && s.roles[x].name == name {
      assert Some(x) != except;
    }
  }

  /** What a role request leaves of the roles beside the one it names. */
  lemma RoleRequestIsExact(s: Access, r: Request)
    requires (r.CreateRole? || r.RemoveRole?) && Outcome(s, r).Ok?
    ensures Step(s, r).roles
         == if r.CreateRole? then s.roles[r.roleId := Role(r.name, r.tenant, r.permissions)] else s.roles - {r.roleId}
  {
  }

  /** The user holds a role named SuperAdmin in the tenant. */
  predicate HoldsSuperAdmin(s: Access, user: UserId, tenant: Tenant) {
    exists a <- s.assignments :: s.assignments[a].userId == user && Administers(s, a, tenant)
  }

  /** When members, assignments and locations can be removed. */
  lemma RemovalAcceptedIff(s: Access, r: Request)
    requires r.RemoveMember? || r.Unassign? || r.RemoveLocation?
    ensures Outcome(s, r).Ok?
       <==> match r
            case RemoveMember(tenant, userId) =>
              tenant in s.tenants && (userId, tenant) in s.members && !HoldsSuperAdmin(s, userId, tenant)
            case Unassign(tenant, roleId, userId, locationId) =>
              && (exists a <- s.assignments :: s.assignments[a] == Assignment(userId, roleId, tenant, locationId))
              && (roleId in s.roles && s.roles[roleId].name == "SuperAdmin" ==>
                    exists a <- s.assignments ::
                      s.assignments[a].roleId == roleId && s.assignments[a].tenant == tenant
                      && s.assignments[a].userId != userId)
            case RemoveLocation(_, locationExists, hasStock) => locationExists && !hasStock
            case _ => false
  {
    match r
    case RemoveMember(tenant, userId) => AdminIff(s, userId, tenant);
    case Unassign(_, _, _, _) =>
    case RemoveLocation(_, _, _) =>
  }

  lemma AdminIff(s: Access, user: UserId, tenant: Tenant)
    ensures IsAdmin(s, user, tenant) <==> HoldsSuperAdmin(s, user, tenant)
  {
    if a :| (a in s.assignments && s.assignments[a].userId == user && s.assignments[a].tenant == tenant
             && s.assignments[a].roleId in s.roles && Protected(s.roles[s.assignments[a].roleId].name)) {
      assert Administers(s, a, tenant);
    }
  }

  /** A new tenant has its SuperAdmin role with the permissions given; an invitation waits for its addressee. */
  lemma NewRowsAreExact(s: Access, r: Request)
    requires (r.CreateTenant? || r.Invite?) && Outcome(s, r).Ok?
    ensures var after := Step(s, r);
            && (r.CreateTenant? ==>
                  && after.tenants == s.tenants + {r.newTenant}
                  && after.roles == s.roles[r.adminRoleId := Role("SuperAdmin", r.newTenant, r.permissions)])
            && (r.Invite? ==>
                  && r.tenant in s.tenants && r.invitationId !in s.invitations
                  && (r.invitedRole.Some? ==>
                        r.invitedRole.value in s.roles && s.roles[r.invitedRole.value].tenant == r.tenant)
                  && after == s.(invitations := s.invitations[r.invitationId :=
                       Invitation(r.email, r.tenant, r.invitedRole, Pending, r.expiresAt)]))
  {
  }

  /**
    What becomes of a role: renamed only by a name that is not empty, re-permissioned only
    when permissions are given.
  */
  lemma RoleUpdateIsExact(s: Access, r: Request)
    requires r.UpdateRole? && Outcome(s, r).Ok?
    ensures r.roleId in s.roles && s.roles[r.roleId].tenant == r.tenant
    ensures var role, after := s.roles[r.roleId], Step(s, r);
            && after.roles.Keys == s.roles.Keys
            && (forall x <- s.roles | x != r.roleId :: after.roles[x] == s.roles[x])
            && after.roles[r.roleId].tenant == role.tenant
            && after.roles[r.roleId].name == (if r.newName in {None, Some("")} then role.name else r.newName.value)
            && after.roles[r.roleId].permissions
               == (if r.newPermissions.Some? then r.newPermissions.value else role.permissions)
            && forall x <- s.roles | x != r.roleId && s.roles[x].tenant == role.tenant ::
                 s.roles[x].name != after.roles[r.roleId].name
  {
    var after := Step(s, r);
    assert !NameUsed(s, after.roles[r.roleId].name, s.roles[r.roleId].tenant, Some(r.roleId));
  }

  // ----- The services ---------------------------------------------------------------------------------

  predicate Took(outcome: Result<Access, Error>, before: Access, after: Access, failure: Option<Error>) {
    match outcome
    case Ok(s) => after == s && failure == None
    case Err(InvitationExpired(s)) => after == s && failure == Some(InvitationExpired(s))
    case Err(e) => after == before && failure == Some(e)
  }

  /** So every request moves the tables by `Step`, and what runs of steps keep, runs of requests keep. */
  lemma TookIsAStep(r: Request, before: Access, after: Access, failure: Option<Error>, tenant: Tenant)
    requires Took(Outcome(before, r), before, after, failure)
    ensures after == Step(before, r)
    ensures HasSuperAdmin(before, tenant) && !Orphans(before, r, tenant) ==> HasSuperAdmin(after, tenant)
  {
    if HasSuperAdmin(before, tenant) { StepKeepsSuperAdminIff(before, r, tenant); }
  }

  class AccessControl {
    var tenants: set<Tenant>
    var roles: map<Id, Role>
    var assignments: map<Id, Assignment>
    var members: set<(UserId, Tenant)>
    var invitations: map<Id, Invitation>

    ghost function State(): Access
      reads this
    {
      Access(tenants, roles, assignments, members, invitations)
    }

    constructor (s: Access)
      ensures State() == s
    {
      tenants, roles, assignments, members, invitations := s.tenants, s.roles, s.assignments, s.members, s.invitations;
    }

    method UpdateRolePermissions(tenant: Tenant, roleId: Id, newName: Option<string>,
                                 newPermissions: Option<set<string>>)
      returns (failure: Option<Error>)
      modifies this
      ensures Took(RoleUpdated(old(State()), UpdateRole(tenant, roleId, newName, newPermissions)), old(State()),
                   State(), failure)
    {
      if roleId !in roles || roles[roleId].tenant != tenant {
        return Some(NotFound);
      }
      var role := roles[roleId];
      var given := if newName.Some? && newName.value != "" then newName else None;
      if Protected(role.name) {
        if given.Some? && given.value != role.name {
          return Some(ProtectedRole);
        }
        if newPermissions.Some? {
          return Some(ProtectedRole);
        }
      }
      var name := if given.Some? then given.value else role.name;
      if exists r <- roles :: roles[r].name == name && roles[r].tenant == role.tenant && r != roleId {
        assert NameUsed(State(), name, role.tenant, Some(roleId));
        return Some(NameTaken);
      }
      assert !NameUsed(State(), name, role.tenant, Some(roleId));
      roles := roles[roleId := role.(name := name)];
      if newPermissions.Some? {
        roles := roles[roleId := roles[roleId].(permissions := {})];
        roles := roles[roleId := roles[roleId].(permissions := newPermissions.value)];
      }
      return None;
    }

    method DeleteRole(tenant: Tenant, roleId: Id) returns (failure: Option<Error>)
      modifies this
      ensures Took(RoleRemoved(old(State()), RemoveRole(tenant, roleId)), old(State()), State(), failure)
    {
      if roleId !in roles || roles[roleId].tenant != tenant {
        return Some(NotFound);
      }
      if Protected(roles[roleId].name) {
        return Some(ProtectedRole);
      }
      roles := roles - {roleId};
      assignments := map a <- assignments | assignments[a].roleId != roleId :: assignments[a];
      invitations := map i <- invitations ::
        if invitations[i].roleId == Some(roleId) then invitations[i].(roleId := None) else invitations[i];
      return None;
    }

    method AssignUser(tenant: Tenant, roleId: Id, user: UserId, userKnown: bool, scope: Scope, locationId: Option<Id>,
                      locationKnown: bool, assignmentId: Id)
      returns (failure: Option<Error>)
      requires assignmentId !in assignments
      modifies this
      ensures Took(UserAssigned(old(State()),
                                Assign(tenant, roleId, user, userKnown, scope, locationId, locationKnown,
                                       assignmentId)),
                   old(State()), State(), failure)
    {
      if roleId !in roles || roles[roleId].tenant != tenant || !userKnown {
        return Some(NotFound);
      }
      if scope == AtLocation && locationId.None? {
        return Some(LocationMismatch);
      }
      if scope == TenantWide && locationId.Some? {
        return Some(LocationMismatch);
      }
      if locationId.Some? && !locationKnown {
        return Some(NotFound);
      }
      var a := Assignment(user, roleId, tenant, if scope == AtLocation then locationId else None);
      if a.locationId.Some? && exists x <- assignments :: assignments[x] == a {
        return Some(AlreadyAssigned);
      }
      assignments := assignments[assignmentId := a];
      return None;
    }

    method RemoveUserAssignment(tenant: Tenant, roleId: Id, user: UserId, locationId: Option<Id>)
      returns (failure: Option<Error>)
      modifies this
      ensures Took(UserUnassigned(old(State()), Unassign(tenant, roleId, user, locationId)), old(State()), State(),
                   failure)
    {
      if roleId in roles && Protected(roles[roleId].name) {
        var remaining := set a <- assignments
          | assignments[a].roleId == roleId && assignments[a].tenant == tenant && assignments[a].userId != user;
        assert remaining == {} <==> !HeldByAnother(State(), roleId, tenant, user) by {
          if HeldByAnother(State(), roleId, tenant, user) {
            var a :| a in assignments && assignments[a].roleId == roleId && assignments[a].tenant == tenant
              && assignments[a].userId != user;
            assert a in remaining;
          }
          if a :| a in remaining { assert HeldByAnother(State(), roleId, tenant, user); }
        }
        if |remaining| == 0 {
          return Some(LastSuperAdmin);
        }
      }
      var gone := Assignment(user, roleId, tenant, locationId);
      if !exists a <- assignments :: assignments[a] == gone {
        return Some(NotFound);
      }
      assignments := map a <- assignments | assignments[a] != gone :: assignments[a];
      return None;
    }

    method RemoveTenantMember(tenant: Tenant, user: UserId) returns (failure: Option<Error>)
      modifies this
      ensures Took(MemberRemoved(old(State()), RemoveMember(tenant, user)), old(State()), State(), failure)
    {
      if tenant !in tenants || (user, tenant) !in members {
        return Some(NotFound);
      }
      if exists a <- assignments ::
           assignments[a].userId == user && assignments[a].tenant == tenant
           && assignments[a].roleId in roles && roles[assignments[a].roleId].name == SUPER_ADMIN {
        assert IsAdmin(State(), user, tenant);
        return Some(IsSuperAdmin);
      }
      assert !IsAdmin(State(), user, tenant);
      assignments := map a <- assignments | !(assignments[a].userId == user && assignments[a].tenant == tenant) ::
          assignments[a];
      members := members - {(user, tenant)};
      return None;
    }

    method AcceptInvitation(user: UserId, email: string, invitationId: Id, now: Time, assignmentId: Id)
      returns (failure: Option<Error>)
      requires assignmentId !in assignments
      modifies this
      ensures Took(InvitationAccepted(old(State()), Accept(user, email, invitationId, now, assignmentId)),
                   old(State()), State(), failure)
    {
      if invitationId !in invitations {
        return Some(NotFound);
      }
      var invitation := invitations[invitationId];
      if email != invitation.email {
        return Some(EmailMismatch);
      }
      if invitation.expiresAt.Some? && invitation.expiresAt.value < now {
        invitations := invitations[invitationId := invitation.(status := Expired)];
        return Some(InvitationExpired(Access(tenants, roles, assignments, members, invitations)));
      }
      if invitation.status != Pending {
        return Some(NotPending);
      }
      invitations := invitations[invitationId := invitation.(status := Accepted)];
      members := members + {(user, invitation.tenant)};
      if invitation.roleId.Some? {
        assignments := assignments[assignmentId := Assignment(user, invitation.roleId.value, invitation.tenant, None)];
      }
      return None;
    }

    method DeclineInvitation(invitationId: Id, now: Time) returns (failure: Option<Error>)
      modifies this
      ensures Took(InvitationDeclined(old(State()), Decline(invitationId, now)), old(State()), State(), failure)
    {
      if invitationId !in invitations {
        return Some(NotFound);
      }
      var invitation := invitations[invitationId];
      if invitation.expiresAt.Some? && invitation.expiresAt.value < now {
        invitations := invitations[invitationId := invitation.(status := Expired)];
        return Some(InvitationExpired(Access(tenants, roles, assignments, members, invitations)));
      }
      if invitation.status != Pending {
        return Some(NotPending);
      }
      invitations := invitations[invitationId := invitation.(status := Declined)];
      return None;
    }

    method DeleteTenantInvitation(tenant: Tenant, invitationId: Id) returns (failure: Option<Error>)
      modifies this
      ensures Took(InvitationCancelled(old(State()), CancelInvitation(tenant, invitationId)), old(State()), State(),
                   failure)
    {
      if invitationId !in invitations || invitations[invitationId].tenant != tenant {
        return Some(NotFound);
      }
      if invitations[invitationId].status == Accepted {
        return Some(NotPending);
      }
      if invitations[invitationId].status == Cancelled {
        return Some(NotPending);
      }
      invitations := invitations[invitationId := invitations[invitationId].(status := Cancelled)];
      return None;
    }

    /** The database deletes the assignments made for the location with it. */
    method DeleteLocation(location: Id, locationExists: bool, hasStock: bool) returns (failure: Option<Error>)
      modifies this
      ensures Took(LocationRemoved(old(State()), RemoveLocation(location, locationExists, hasStock)), old(State()),
                   State(), failure)
    {
      if !locationExists {
        return Some(NotFound);
      }
      if hasStock {
        return Some(HasStock);
      }
      assignments := map a <- assignments | assignments[a].locationId != Some(location) :: assignments[a];
      return None;
    }
  }
}
