/**
 Who may do what to whom (web/src/shared/domain/permissions.ts and role.ts), and the service's own checks
 (MembershipPolicy), which the dashboard's rules must mirror.
 */
module Permissions {
  import opened Options

  datatype Role = VIEWER | DEVELOPER | ADMIN | OWNER

  datatype OrgKind = PERSONAL | TEAM

  /** The index in `ROLES`. */
  function Rank(role: Role): nat {
    match role
    case VIEWER => 0
    case DEVELOPER => 1
    case ADMIN => 2
    case OWNER => 3
  }

  predicate AtLeast(role: Role, minimum: Role) { Rank(role) >= Rank(minimum) }

  /** The roles in ascending order: a viewer, a developer, an admin, an owner. */
  lemma AtLeastMeaning(role: Role, minimum: Role)
    ensures AtLeast(role, minimum)
            <==> role == minimum || role == OWNER || minimum == VIEWER || (role == ADMIN && minimum == DEVELOPER)
  {
  }

  /** `can(access, "invites.manage")`: an admin's, and only in a team. */
  predicate CanManageInvites(role: Role, kind: OrgKind) { AtLeast(role, ADMIN) && kind == TEAM }

  predicate CanRemoveMember(caller: Role, target: Role, isSelf: bool) {
    if target == OWNER then false
    else if isSelf || caller == OWNER then true
    else caller == ADMIN && !AtLeast(target, ADMIN)
  }

  predicate CanChangeRoleOf(caller: Role, target: Role) { caller == OWNER && target != OWNER }

  predicate CanTransferOwnershipTo(caller: Role, target: Role) { caller == OWNER && target != OWNER }

  function GrantableInviteRoles(caller: Role): seq<Role> {
    match caller
    case OWNER => [ADMIN, DEVELOPER, VIEWER]
    case ADMIN => [DEVELOPER, VIEWER]
    case _ => []
  }

  const ASSIGNABLE_ROLES := [ADMIN, DEVELOPER, VIEWER]
  const INVITABLE_ROLES := [ADMIN, DEVELOPER, VIEWER]

  function Filtered(roles: seq<Role>, among: seq<Role>): seq<Role> {
    if roles == [] then []
    else (if roles[0] in among then [roles[0]] else []) + Filtered(roles[1..], among)
  }

  lemma {:induction false} FilteredMeaning(roles: seq<Role>, among: seq<Role>, role: Role)
    ensures role in Filtered(roles, among) <==> role in roles && role in among
  {
    if roles != [] {
      FilteredMeaning(roles[1..], among, role);
      assert roles == [roles[0]] + roles[1..];
    }
  }

  function InvitableRolesFor(caller: Role): seq<Role> { Filtered(GrantableInviteRoles(caller), INVITABLE_ROLES) }

  predicate CanManageInvite(caller: Role, invited: Role) { invited in GrantableInviteRoles(caller) }

  function DefaultInviteRole(caller: Role): Option<Role> {
    var roles := InvitableRolesFor(caller);
    if DEVELOPER in roles then Some(DEVELOPER) else if roles != [] then Some(roles[0]) else None
  }

  // ----- The service's checks: the exception each throws, if any.

  datatype Refusal = InsufficientRole | InvalidRoleTransition | LastOwner

  function CheckCanInvite(actor: Role, invited: Role): Option<Refusal> {
    if !AtLeast(actor, ADMIN) then Some(InsufficientRole)
    else if invited == OWNER then Some(InvalidRoleTransition)
    else if actor == ADMIN && invited == ADMIN then Some(InsufficientRole)
    else None
  }

  function CheckCanChangeRole(actor: Role, target: Role, role: Role): Option<Refusal> {
    if actor != OWNER then Some(InsufficientRole)
    else if target == OWNER || role == OWNER then Some(InvalidRoleTransition)
    else None
  }

  function CheckCanRemove(actor: Role, isSelf: bool, target: Role): Option<Refusal> {
    if target == OWNER then Some(LastOwner)
    else if isSelf || actor == OWNER then None
    else if actor == ADMIN && !AtLeast(target, ADMIN) then None
    else Some(InsufficientRole)
  }

  function CheckCanTransferOwnership(actor: Role, target: Role, targetActive: bool): Option<Refusal> {
    if actor != OWNER then Some(InsufficientRole)
    else if !targetActive || target == OWNER then Some(InvalidRoleTransition)
    else None
  }

  lemma InvitableIsGrantable(caller: Role, role: Role)
    ensures role in InvitableRolesFor(caller) <==> role in GrantableInviteRoles(caller)
  {
    FilteredMeaning(GrantableInviteRoles(caller), INVITABLE_ROLES, role);
  }

  /** The dashboard offers exactly what the service would not refuse. */
  lemma OffersMirrorChecks(caller: Role, target: Role, role: Role, isSelf: bool)
    ensures CanRemoveMember(caller, target, isSelf) <==> CheckCanRemove(caller, isSelf, target).None?
    ensures CanChangeRoleOf(caller, target) && role in ASSIGNABLE_ROLES
            <==> CheckCanChangeRole(caller, target, role).None?
    ensures CanTransferOwnershipTo(caller, target) <==> CheckCanTransferOwnership(caller, target, true).None?
    ensures role in InvitableRolesFor(caller) <==> CheckCanInvite(caller, role).None?
    ensures DefaultInviteRole(caller).Some? <==> AtLeast(caller, ADMIN)
    ensures DefaultInviteRole(caller).Some? ==> DefaultInviteRole(caller).value == DEVELOPER
  {
    InvitableIsGrantable(caller, role);
    InvitableIsGrantable(caller, DEVELOPER);
  }
}
