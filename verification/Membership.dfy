/**
 An organization's members and invites, changed only by what the dashboard offers
 (web/src/modules/members/domain/member-actions.ts and the invite rules).
 */
module Membership {
  import opened Options
  import opened Permissions

  type UserId = nat
  type InviteId = nat

  datatype Member = Member(userId: UserId, role: Role, active: bool)

  datatype MemberAction = CHANGE_ROLE | TRANSFER_OWNERSHIP | REMOVE | LEAVE

  /** What a viewer may do to a member, in the order a menu lists it. */
  function Offered(member: Member, viewer: UserId, viewerRole: Role): seq<MemberAction> {
    if !member.active then []
    else if member.userId == viewer then if CanRemoveMember(viewerRole, member.role, true) then [LEAVE] else []
    else
      (if CanChangeRoleOf(viewerRole, member.role) then [CHANGE_ROLE] else [])
      + (if CanTransferOwnershipTo(viewerRole, member.role) then [TRANSFER_OWNERSHIP] else [])
      + (if CanRemoveMember(viewerRole, member.role, false) then [REMOVE] else [])
  }

  /** Where an action stands in a menu that lists them all. */
  function MenuOrder(action: MemberAction): nat {
    match action case CHANGE_ROLE => 0 case TRANSFER_OWNERSHIP => 1 case REMOVE => 2 case LEAVE => 3
  }

  /**
   The menu holds just what the service would not refuse: leaving to the viewer, and of others their removal, any
   other role, and ownership. Nothing is listed twice, and all in the menu's order.
   */
  lemma OfferedExactly(member: Member, viewer: UserId, viewerRole: Role, role: Role)
    ensures var menu := Offered(member, viewer, viewerRole);
            && (REMOVE in menu <==> member.active && member.userId != viewer
                                    && CheckCanRemove(viewerRole, false, member.role).None?)
            && (LEAVE in menu <==> member.active && member.userId == viewer
                                   && CheckCanRemove(viewerRole, true, member.role).None?)
            && (CHANGE_ROLE in menu && role in ASSIGNABLE_ROLES
                <==> member.active && member.userId != viewer
                     && CheckCanChangeRole(viewerRole, member.role, role).None?)
            && (TRANSFER_OWNERSHIP in menu
                <==> member.userId != viewer
                     && CheckCanTransferOwnership(viewerRole, member.role, member.active).None?)
            && forall i, j :: 0 <= i < j < |menu| ==> MenuOrder(menu[i]) < MenuOrder(menu[j])
  {
    OffersMirrorChecks(viewerRole, member.role, role, true);
    OffersMirrorChecks(viewerRole, member.role, role, false);
  }

  method MemberActions(member: Member, viewer: UserId, viewerRole: Role) returns (actions: seq<MemberAction>)
    ensures actions == Offered(member, viewer, viewerRole)
  {
    if !member.active {
      return [];
    }
    if member.userId == viewer {
      return if CanRemoveMember(viewerRole, member.role, true) then [LEAVE] else [];
    }
    actions := [];
    if CanChangeRoleOf(viewerRole, member.role) {
      actions := actions + [CHANGE_ROLE];
    }
    if CanTransferOwnershipTo(viewerRole, member.role) {
      actions := actions + [TRANSFER_OWNERSHIP];
    }
    if CanRemoveMember(viewerRole, member.role, false) {
      actions := actions + [REMOVE];
    }
  }

  /** A pending invite, with the role its inviter had when inviting. */
  datatype Invite = Invite(role: Role, inviterRole: Role)

  datatype Org = Org(kind: OrgKind, members: map<UserId, Member>, invites: map<InviteId, Invite>)

  datatype Step =
    | ChangesRole(actor: UserId, target: UserId, role: Role)
    | Transfers(actor: UserId, target: UserId)
    | Removes(actor: UserId, target: UserId)
    | Leaves(actor: UserId)
    | Invites(actor: UserId, id: InviteId, role: Role)
    | Revokes(actor: UserId, id: InviteId)
    | Accepts(user: UserId, id: InviteId)

  predicate IsActive(org: Org, user: UserId) { user in org.members && org.members[user].active }

  predicate HasRole(org: Org, user: UserId, role: Role) { IsActive(org, user) && org.members[user].role == role }

  predicate IsOffered(org: Org, actor: UserId, target: UserId, action: MemberAction) {
    IsActive(org, actor) && target in org.members
    && action in Offered(org.members[target], actor, org.members[actor].role)
  }

  predicate Enabled(org: Org, step: Step) {
    match step
    case ChangesRole(actor, target, role) => IsOffered(org, actor, target, CHANGE_ROLE) && role in ASSIGNABLE_ROLES
    case Transfers(actor, target) => IsOffered(org, actor, target, TRANSFER_OWNERSHIP)
    case Removes(actor, target) => IsOffered(org, actor, target, REMOVE)
    case Leaves(actor) => IsOffered(org, actor, actor, LEAVE)
    case Invites(actor, id, role) =>
      IsActive(org, actor) && CanManageInvites(org.members[actor].role, org.kind)
      && role in InvitableRolesFor(org.members[actor].role) && id !in org.invites
    case Revokes(actor, id) =>
      IsActive(org, actor) && id in org.invites && CanManageInvite(org.members[actor].role, org.invites[id].role)
    case Accepts(user, id) => id in org.invites && !IsActive(org, user)
  }

  function WithMember(org: Org, member: Member): Org { org.(members := org.members[member.userId := member]) }

  function Next(org: Org, step: Step): Org
    requires Enabled(org, step)
  {
    match step
    case ChangesRole(_, target, role) => WithMember(org, Member(target, role, true))
    case Transfers(actor, target) =>
      WithMember(WithMember(org, Member(target, OWNER, true)), Member(actor, ADMIN, true))
    case Removes(_, target) => WithMember(org, Member(target, org.members[target].role, false))
    case Leaves(actor) => WithMember(org, Member(actor, org.members[actor].role, false))
    case Invites(actor, id, role) => org.(invites := org.invites[id := Invite(role, org.members[actor].role)])
    case Revokes(_, id) => org.(invites := org.invites - {id})
    case Accepts(user, id) => WithMember(org, Member(user, org.invites[id].role, true)).(invites := org.invites - {id})
  }

  /** The states a run goes through, one more than its steps. */
  ghost predicate Trace(states: seq<Org>, steps: seq<Step>) {
    && |states| == |steps| + 1
    && forall i :: 0 <= i < |steps| ==> Enabled(states[i], steps[i]) && states[i + 1] == Next(states[i], steps[i])
  }

  ghost predicate SoleOwner(org: Org, owner: UserId) {
    HasRole(org, owner, OWNER) && forall u :: HasRole(org, u, OWNER) ==> u == owner
  }

  /** Exactly one active owner; nobody is invited as owner, nor as admin but by one. */
  ghost predicate Inv(org: Org) {
    && (forall u :: u in org.members ==> org.members[u].userId == u)
    && (exists owner :: SoleOwner(org, owner))
    && forall id :: id in org.invites ==>
         org.invites[id].role != OWNER && (org.invites[id].role == ADMIN ==> org.invites[id].inviterRole == OWNER)
  }

  // ----- What is offered is what the service accepts, and what each step does.

  /** The actor is active, and the one acted on is another active member. */
  predicate OnAnother(org: Org, actor: UserId, target: UserId) {
    IsActive(org, actor) && IsActive(org, target) && actor != target
  }

  /** A step an active member may take as the service checks it; anyone not yet a member may accept an invite. */
  predicate ServiceAllows(org: Org, step: Step) {
    match step
    case ChangesRole(actor, target, role) =>
      OnAnother(org, actor, target)
      && CheckCanChangeRole(org.members[actor].role, org.members[target].role, role).None?
    case Transfers(actor, target) =>
      OnAnother(org, actor, target)
      && CheckCanTransferOwnership(org.members[actor].role, org.members[target].role, true).None?
    case Removes(actor, target) =>
      OnAnother(org, actor, target)
      && CheckCanRemove(org.members[actor].role, false, org.members[target].role).None?
    case Leaves(actor) =>
      IsActive(org, actor) && CheckCanRemove(org.members[actor].role, true, org.members[actor].role).None?
    case Invites(actor, id, role) =>
      IsActive(org, actor) && org.kind == TEAM && id !in org.invites
      && CheckCanInvite(org.members[actor].role, role).None?
    case Revokes(actor, id) =>
      IsActive(org, actor) && id in org.invites
      && CheckCanInvite(org.members[actor].role, org.invites[id].role).None?
    case Accepts(user, id) => id in org.invites && !IsActive(org, user)
  }

  /** The dashboard offers a step exactly when the service would take it. */
  lemma EnabledExactly(org: Org, step: Step)
    requires forall u :: u in org.members ==> org.members[u].userId == u
    ensures Enabled(org, step) <==> ServiceAllows(org, step)
  {
    match step
    case ChangesRole(actor, target, role) =>
      if IsActive(org, actor) && target in org.members {
        OfferedExactly(org.members[target], actor, org.members[actor].role, role);
      }
    case Transfers(actor, target) =>
      if IsActive(org, actor) && target in org.members {
        OfferedExactly(org.members[target], actor, org.members[actor].role, ADMIN);
      }
    case Removes(actor, target) =>
      if IsActive(org, actor) && target in org.members {
        OfferedExactly(org.members[target], actor, org.members[actor].role, ADMIN);
      }
    case Leaves(actor) =>
      if IsActive(org, actor) {
        OfferedExactly(org.members[actor], actor, org.members[actor].role, ADMIN);
      }
    case Invites(actor, id, role) =>
      if IsActive(org, actor) {
        OffersMirrorChecks(org.members[actor].role, VIEWER, role, false);
      }
    case Revokes(actor, id) =>
      if IsActive(org, actor) && id in org.invites {
        OffersMirrorChecks(org.members[actor].role, VIEWER, org.invites[id].role, false);
        InvitableIsGrantable(org.members[actor].role, org.invites[id].role);
      }
    case Accepts(_, _) =>
  }

  function RoleOf(org: Org, user: UserId): Option<Role> {
    if IsActive(org, user) then Some(org.members[user].role) else None
  }

  /** The role an active member has after a step: none once removed or gone. */
  function RoleAfter(org: Org, step: Step, user: UserId): Option<Role>
    requires Enabled(org, step)
  {
    match step
    case ChangesRole(_, target, role) => if user == target then Some(role) else RoleOf(org, user)
    case Transfers(actor, target) =>
      if user == actor then Some(ADMIN) else if user == target then Some(OWNER) else RoleOf(org, user)
    case Removes(_, target) => if user == target then None else RoleOf(org, user)
    case Leaves(actor) => if user == actor then None else RoleOf(org, user)
    case Accepts(accepting, id) => if user == accepting then Some(org.invites[id].role) else RoleOf(org, user)
    case _ => RoleOf(org, user)
  }

  /** Every member's role after a step, and every invite: those the step names change as it says, and no others. */
  lemma StepChanges(org: Org, step: Step, user: UserId, id: InviteId)
    requires Inv(org) && Enabled(org, step)
    ensures var next := Next(org, step);
            && next.kind == org.kind
            && RoleOf(next, user) == RoleAfter(org, step, user)
            && (id in next.invites
                <==> (step.Invites? && step.id == id)
                     || (id in org.invites && !((step.Revokes? || step.Accepts?) && step.id == id)))
            && (id in next.invites ==>
                  next.invites[id] == if step.Invites? && step.id == id
                                      then Invite(step.role, org.members[step.actor].role) else org.invites[id])
  {
  }

  /** The next owner: the target of a transfer, else the same. */
  lemma OwnerAfter(org: Org, step: Step, owner: UserId)
    requires Inv(org) && SoleOwner(org, owner) && Enabled(org, step)
    ensures SoleOwner(Next(org, step), if step.Transfers? then step.target else owner)
  {
    var next := Next(org, step);
    var heir := if step.Transfers? then step.target else owner;
    if step.Transfers? {
      assert HasRole(org, step.actor, OWNER);
    }
    assert HasRole(next, heir, OWNER);
    forall u | HasRole(next, u, OWNER)
      ensures u == heir
    {
      assert HasRole(org, u, OWNER) ==> u == owner;
    }
  }

  lemma StepKeepsInv(org: Org, step: Step)
    requires Inv(org) && Enabled(org, step)
    ensures Inv(Next(org, step))
  {
    var owner :| SoleOwner(org, owner);
    OwnerAfter(org, step, owner);
    if step.Invites? {
      InvitableIsGrantable(org.members[step.actor].role, step.role);
    }
  }

  /** In every reachable state there is exactly one active owner. */
  lemma {:induction false} OneOwnerAlways(states: seq<Org>, steps: seq<Step>, k: nat)
    requires Trace(states, steps) && Inv(states[0]) && k < |states|
    ensures Inv(states[k])
  {
    if k > 0 {
      OneOwnerAlways(states, steps, k - 1);
      StepKeepsInv(states[k - 1], steps[k - 1]);
    }
  }

  function ActorOf(step: Step): Option<UserId> {
    match step
    case ChangesRole(actor, _, _) => Some(actor)
    case Transfers(actor, _) => Some(actor)
    case Removes(actor, _) => Some(actor)
    case Leaves(actor) => Some(actor)
    case Invites(actor, _, _) => Some(actor)
    case Revokes(actor, _) => Some(actor)
    case Accepts(_, _) => None
  }

  predicate SameMember(org: Org, after: Org, user: UserId) {
    && (user in org.members <==> user in after.members)
    && (user in org.members ==> org.members[user] == after.members[user])
  }

  /** No step touches an active member other than its actor, unless strictly below the actor. */
  lemma OnlyBelowTouched(org: Org, step: Step, user: UserId)
    requires Inv(org) && Enabled(org, step) && IsActive(org, user)
    requires ActorOf(step) != Some(user) && !SameMember(org, Next(org, step), user)
    ensures ActorOf(step).Some? && IsActive(org, ActorOf(step).value)
    ensures Rank(org.members[user].role) < Rank(org.members[ActorOf(step).value].role)
  {
  }

  /** How one becomes an admin: by an owner's step, or by accepting an owner's invite. */
  predicate MakesAdmin(org: Org, step: Step, user: UserId) {
    match step
    case ChangesRole(actor, target, role) => target == user && role == ADMIN && HasRole(org, actor, OWNER)
    case Transfers(actor, _) => actor == user && HasRole(org, user, OWNER)
    case Accepts(u, id) => u == user && id in org.invites && org.invites[id] == Invite(ADMIN, OWNER)
    case _ => false
  }

  lemma NewAdminStep(org: Org, step: Step, user: UserId)
    requires Inv(org) && Enabled(org, step)
    requires HasRole(Next(org, step), user, ADMIN) && !HasRole(org, user, ADMIN)
    ensures MakesAdmin(org, step, user)
  {
  }

  /** Over every run: an admin was one from the start, or some step of the run made them one, by an owner's will. */
  lemma {:induction false} AdminsHaveGrants(states: seq<Org>, steps: seq<Step>, k: nat, user: UserId)
    requires Trace(states, steps) && Inv(states[0]) && k < |states| && HasRole(states[k], user, ADMIN)
    ensures HasRole(states[0], user, ADMIN)
            || exists i :: 0 <= i < k && MakesAdmin(states[i], steps[i], user)
  {
    if k > 0 {
      OneOwnerAlways(states, steps, k - 1);
      if HasRole(states[k - 1], user, ADMIN) {
        AdminsHaveGrants(states, steps, k - 1, user);
      } else {
        NewAdminStep(states[k - 1], steps[k - 1], user);
      }
    }
  }

  /** An owner's invite was made by the owner of that moment, or was there from the start. */
  lemma {:induction false} InvitesHaveOwners(states: seq<Org>, steps: seq<Step>, k: nat, id: InviteId)
    requires Trace(states, steps) && Inv(states[0]) && k < |states|
    requires id in states[k].invites && states[k].invites[id].role == ADMIN
    ensures (id in states[0].invites && states[0].invites[id] == states[k].invites[id])
            || exists i :: 0 <= i < k && steps[i].Invites? && steps[i].id == id && steps[i].role == ADMIN
                           && HasRole(states[i], steps[i].actor, OWNER)
  {
    if k > 0 {
      OneOwnerAlways(states, steps, k - 1);
      if id in states[k - 1].invites {
        InvitesHaveOwners(states, steps, k - 1, id);
      } else {
        InvitableIsGrantable(states[k - 1].members[steps[k - 1].actor].role, ADMIN);
      }
    }
  }
}
