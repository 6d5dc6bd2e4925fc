/** Workspace membership (`workspaces/services.py`). The tables are values here and each
    service is one atomic step on them; a service that raises leaves them as they were. */
module Membership {
  import opened Options

  datatype Role = Admin | Member
  datatype Standing = Active | Waiting
  datatype Membership = Membership(role: Role, standing: Standing)

  /** A user's row in a workspace; (workspace, user) is unique. */
  datatype Seat = Seat(workspace: nat, user: nat)

  datatype InviteCode = InviteCode(workspace: nat, isActive: bool, maxUses: Option<nat>, useCount: nat,
                                   expiresAt: Option<int>)

  datatype Answer = Unanswered | Accepted | Declined
  datatype Invitation = Invitation(workspace: nat, invitee: nat, answer: Answer)

  /** The tables. Keys are handed out in order and never twice. */
  datatype Tables = Tables(workspaces: set<nat>, members: map<Seat, Membership>, codes: map<nat, InviteCode>,
                           invitations: map<nat, Invitation>, nextKey: nat)

  datatype Fault = PermissionDenied | Invalid | DoesNotExist

  // ---------- Queries ----------

  predicate IsActive(t: Tables, w: nat, u: nat) {
    Seat(w, u) in t.members && t.members[Seat(w, u)].standing.Active?
  }

  predicate IsAdmin(t: Tables, w: nat, u: nat) {
    IsActive(t, w, u) && t.members[Seat(w, u)].role.Admin?
  }

  predicate OtherActive(t: Tables, w: nat, u: nat) {
    exists s :: s in t.members && s.workspace == w && s.user != u && t.members[s].standing.Active?
  }

  predicate OtherAdmin(t: Tables, w: nat, u: nat) {
    exists s :: s in t.members && s.workspace == w && s.user != u && t.members[s] == Membership(Admin, Active)
  }

  predicate IsRedeemable(code: InviteCode, now: int) {
    && code.isActive
    && (code.expiresAt.Some? ==> now < code.expiresAt.value)
    && (code.maxUses.Some? ==> code.useCount < code.maxUses.value)
  }

  // ---------- Services ----------

  function CreateWorkspace(t: Tables, actor: nat, kindIsKnown: bool): Result<Tables, Fault> {
    if !kindIsKnown then Err(Invalid)
    else
      var w := t.nextKey;
      Ok(t.(workspaces := t.workspaces + {w}, members := t.members[Seat(w, actor) := Membership(Admin, Active)],
                 nextKey := w + 1))
  }

  function IssueInviteCode(t: Tables, w: nat, actor: nat, maxUses: Option<nat>, expiresAt: Option<int>)
    : Result<Tables, Fault>
  {
    if !IsAdmin(t, w, actor) then Err(PermissionDenied)
    else
      Ok(t.(codes := t.codes[t.nextKey := InviteCode(w, true, maxUses, 0, expiresAt)], nextKey := t.nextKey + 1))
  }

  predicate HasOpenInvitation(t: Tables, w: nat, invitee: nat) {
    exists i :: i in t.invitations && t.invitations[i] == Invitation(w, invitee, Unanswered)
  }

  function InviteExistingUser(t: Tables, w: nat, actor: nat, invitee: nat): Result<Tables, Fault> {
    if !IsAdmin(t, w, actor) then Err(PermissionDenied)
    else if IsActive(t, w, invitee) then Err(Invalid)
    else if HasOpenInvitation(t, w, invitee) then Ok(t)
    else
      Ok(t.(invitations := t.invitations[t.nextKey := Invitation(w, invitee, Unanswered)],
                 nextKey := t.nextKey + 1))
  }

  /** An active row is left alone; a missing or waiting one becomes an active member. */
  function Join(t: Tables, w: nat, u: nat): Tables {
    if Seat(w, u) !in t.members then t.(members := t.members[Seat(w, u) := Membership(Member, Active)])
    else if !t.members[Seat(w, u)].standing.Active? then
      t.(members := t.members[Seat(w, u) := Membership(Member, Active)])
    else t
  }

  function RespondToInvitation(t: Tables, id: nat, actor: nat, accept: bool): Result<Tables, Fault> {
    if id !in t.invitations || t.invitations[id].invitee != actor || t.invitations[id].answer != Unanswered then
      Err(DoesNotExist)
    else
      var invitation := t.invitations[id];
      var answer := if accept then Accepted else Declined;
      var answered := t.(invitations := t.invitations[id := invitation.(answer := answer)]);
      Ok(if accept then Join(answered, invitation.workspace, actor) else answered)
  }

  function RedeemInviteCode(t: Tables, actor: nat, code: nat, now: int): Result<Tables, Fault> {
    if code !in t.codes || !IsRedeemable(t.codes[code], now) then Err(Invalid)
    else
      var invite := t.codes[code];
      var used := invite.(useCount := invite.useCount + 1);
      var spent := used.maxUses.Some? && used.useCount >= used.maxUses.value;
      Ok(Join(t, invite.workspace, actor).(codes := t.codes[code := if spent then used.(isActive := false) else used]))
  }

  /** The table after a role change, without the guard for the last admin. */
  function WithRole(t: Tables, w: nat, member: nat, role: Role): Tables
    requires Seat(w, member) in t.members
  {
    t.(members := t.members[Seat(w, member) := t.members[Seat(w, member)].(role := role)])
  }

  function ChangeMemberRole(t: Tables, w: nat, actor: nat, member: nat, role: Option<Role>): Result<Tables, Fault> {
    if !IsAdmin(t, w, actor) then Err(PermissionDenied)
    else if role.None? then Err(Invalid)
    else if !IsActive(t, w, member) then Err(DoesNotExist)
    else if IsAdmin(t, w, member) && role.value.Member? && !OtherAdmin(t, w, member) then Err(Invalid)
    else Ok(WithRole(t, w, member, role.value))
  }

  function WithoutMember(t: Tables, w: nat, member: nat): Tables {
    t.(members := t.members - {Seat(w, member)})
  }

  function RemoveTeamMember(t: Tables, w: nat, actor: nat, member: nat): Result<Tables, Fault> {
    if !IsAdmin(t, w, actor) then Err(PermissionDenied)
    else if !IsActive(t, w, member) then Err(DoesNotExist)
    else if IsAdmin(t, w, member) && !OtherAdmin(t, w, member) then Err(Invalid)
    else Ok(WithoutMember(t, w, member))
  }

  /** The active seats of a user. */
  function SeatsOf(t: Tables, user: nat): set<Seat> {
    set s | s in t.members && s.user == user && t.members[s].standing.Active?
  }

  /** The user is the only active admin of a workspace that has other active members. */
  predicate IsIndispensable(t: Tables, s: Seat)
    requires s in t.members
  {
    OtherActive(t, s.workspace, s.user) && t.members[s].role.Admin? && !OtherAdmin(t, s.workspace, s.user)
  }

  function SoloWorkspaces(t: Tables, seats: set<Seat>): set<nat> {
    set s | s in seats && !OtherActive(t, s.workspace, s.user) :: s.workspace
  }

  /** Deleting workspaces takes every row that refers to them along. */
  function WithoutWorkspaces(t: Tables, ids: set<nat>): Tables {
    Tables(t.workspaces - ids,
           map s | s in t.members && s.workspace !in ids :: t.members[s],
           map c | c in t.codes && t.codes[c].workspace !in ids :: t.codes[c],
           map i | i in t.invitations && t.invitations[i].workspace !in ids :: t.invitations[i],
           t.nextKey)
  }

  /** Deleting a user takes their seats and the invitations sent to them along. */
  function WithoutUser(t: Tables, user: nat): Tables {
    t.(members := map s | s in t.members && s.user != user :: t.members[s],
       invitations := map i | i in t.invitations && t.invitations[i].invitee != user :: t.invitations[i])
  }

  function Purge(t: Tables, ids: set<nat>, user: nat): Tables {
    WithoutUser(WithoutWorkspaces(t, ids), user)
  }

  function DeleteAccount(t: Tables, user: nat): Result<Tables, Fault> {
    if exists s :: s in SeatsOf(t, user) && IsIndispensable(t, s) then Err(Invalid)
    else Ok(Purge(t, SoloWorkspaces(t, SeatsOf(t, user)), user))
  }

  // ---------- Runs ----------

  datatype Op =
    | Create(actor: nat, kindIsKnown: bool)
    | Issue(workspace: nat, actor: nat, maxUses: Option<nat>, expiresAt: Option<int>)
    | Invite(workspace: nat, actor: nat, invitee: nat)
    | Respond(invitation: nat, actor: nat, accept: bool)
    | Redeem(actor: nat, code: nat, now: int)
    | ChangeRole(workspace: nat, actor: nat, member: nat, role: Option<Role>)
    | Remove(workspace: nat, actor: nat, member: nat)
    | Delete(actor: nat)

  function Serve(t: Tables, op: Op): Result<Tables, Fault> {
    match op
    case Create(actor, known) => CreateWorkspace(t, actor, known)
    case Issue(w, actor, maxUses, expiresAt) => IssueInviteCode(t, w, actor, maxUses, expiresAt)
    case Invite(w, actor, invitee) => InviteExistingUser(t, w, actor, invitee)
    case Respond(id, actor, accept) => RespondToInvitation(t, id, actor, accept)
    case Redeem(actor, code, now) => RedeemInviteCode(t, actor, code, now)
    case ChangeRole(w, actor, member, role) => ChangeMemberRole(t, w, actor, member, role)
    case Remove(w, actor, member) => RemoveTeamMember(t, w, actor, member)
    case Delete(user) => DeleteAccount(t, user)
  }

  function After(t: Tables, op: Op): Tables {
    if Serve(t, op).Ok? then Serve(t, op).value else t
  }

  function Run(t: Tables, ops: seq<Op>): Tables
    decreases |ops|
  {
    if ops == [] then t else Run(After(t, ops[0]), ops[1..])
  }

  // ---------- The invariant ----------

  ghost predicate Governed(t: Tables) {
    forall w :: w in t.workspaces ==> HasAdmin(t, w)
  }

  ghost predicate HasAdmin(t: Tables, w: nat) {
    exists u :: IsAdmin(t, w, u)
  }

  ghost predicate Linked(t: Tables) {
    && (forall w :: w in t.workspaces ==> w < t.nextKey)
    && (forall s :: s in t.members ==> s.workspace in t.workspaces)
    && (forall c :: c in t.codes ==> c < t.nextKey && t.codes[c].workspace in t.workspaces)
    && (forall i :: i in t.invitations ==> i < t.nextKey && t.invitations[i].workspace in t.workspaces)
  }

  ghost predicate WithinLimits(t: Tables) {
    forall c :: c in t.codes && t.codes[c].maxUses.Some? ==> t.codes[c].useCount <= t.codes[c].maxUses.value
  }

  ghost predicate Inv(t: Tables) {
    Governed(t) && Linked(t) && WithinLimits(t)
  }

  /** Every admin elsewhere, and every admin of `w` but `u`, is still one. */
  ghost predicate AdminsKept(t: Tables, after: Tables, w: nat, u: nat) {
    forall x, v :: IsAdmin(t, x, v) && (x != w || v != u) ==> IsAdmin(after, x, v)
  }

  lemma OthersGovern(t: Tables, after: Tables, w: nat, u: nat)
    requires Governed(t) && after.workspaces <= t.workspaces && AdminsKept(t, after, w, u)
    requires w in after.workspaces && IsAdmin(t, w, u) && !IsAdmin(after, w, u) ==> OtherAdmin(t, w, u)
    ensures Governed(after)
  {
    forall x | x in after.workspaces ensures HasAdmin(after, x) {
      var v :| IsAdmin(t, x, v);
      if x == w && v == u && !IsAdmin(after, w, u) {
        var s :| s in t.members && s.workspace == w && s.user != u && t.members[s] == Membership(Admin, Active);
        assert s == Seat(w, s.user);
        assert IsAdmin(after, w, s.user);
      } else {
        assert IsAdmin(after, x, v);
      }
    }
  }

  lemma JoinKeepsAdmins(t: Tables, w: nat, u: nat)
    ensures forall x, v :: IsAdmin(t, x, v) <==> IsAdmin(Join(t, w, u), x, v)
  {
  }

  lemma CreateKeepsGoverned(t: Tables, actor: nat)
    requires Inv(t)
    ensures Governed(CreateWorkspace(t, actor, true).value)
  {
    var after := CreateWorkspace(t, actor, true).value;
    forall w | w in after.workspaces ensures HasAdmin(after, w) {
      if w == t.nextKey {
        assert IsAdmin(after, w, actor);
      } else {
        var u :| IsAdmin(t, w, u);
        assert IsAdmin(after, w, u);
      }
    }
  }

  lemma DeleteKeepsGoverned(t: Tables, user: nat)
    requires Inv(t) && DeleteAccount(t, user).Ok?
    ensures Governed(DeleteAccount(t, user).value)
  {
    var after := DeleteAccount(t, user).value;
    forall w | w in after.workspaces ensures HasAdmin(after, w) {
      var v :| IsAdmin(t, w, v);
      if v == user {
        assert Seat(w, user) in SeatsOf(t, user);
        assert OtherActive(t, w, user);
        assert OtherAdmin(t, w, user);
        var s :| s in t.members && s.workspace == w && s.user != user && t.members[s] == Membership(Admin, Active);
        assert s == Seat(w, s.user);
        assert IsAdmin(after, w, s.user);
      } else {
        assert IsAdmin(after, w, v);
      }
    }
  }

  lemma StepKeepsGoverned(t: Tables, op: Op)
    requires Inv(t)
    ensures Governed(After(t, op))
  {
    if Serve(t, op).Ok? {
      match op
      case Create(actor, _) => CreateKeepsGoverned(t, actor);
      case Issue(_, _, _, _) => OthersGovern(t, After(t, op), 0, 0);
      case Invite(_, _, _) => OthersGovern(t, After(t, op), 0, 0);
      case Respond(id, actor, _) =>
        JoinKeepsAdmins(t, t.invitations[id].workspace, actor);
        OthersGovern(t, After(t, op), 0, 0);
      case Redeem(actor, code, _) =>
        JoinKeepsAdmins(t, t.codes[code].workspace, actor);
        OthersGovern(t, After(t, op), 0, 0);
      case ChangeRole(w, _, member, _) => OthersGovern(t, After(t, op), w, member);
      case Remove(w, _, member) => OthersGovern(t, After(t, op), w, member);
      case Delete(user) => DeleteKeepsGoverned(t, user);
    }
  }

  lemma StepKeepsLinked(t: Tables, op: Op)
    requires Linked(t)
    ensures Linked(After(t, op)) && After(t, op).nextKey >= t.nextKey
  {
  }

  lemma StepKeepsLimits(t: Tables, op: Op)
    requires WithinLimits(t)
    ensures WithinLimits(After(t, op))
  {
  }

  lemma StepKeepsInv(t: Tables, op: Op)
    requires Inv(t)
    ensures Inv(After(t, op)) && After(t, op).nextKey >= t.nextKey
  {
    StepKeepsGoverned(t, op);
    StepKeepsLinked(t, op);
    StepKeepsLimits(t, op);
  }

  /** Whatever services run in whatever order, every workspace that exists has an active
      admin and no invite code is used beyond its limit. */
  lemma {:induction false} RunsStayGoverned(t: Tables, ops: seq<Op>)
    requires Inv(t)
    ensures Inv(Run(t, ops))
    decreases |ops|
  {
    if ops != [] {
      StepKeepsInv(t, ops[0]);
      RunsStayGoverned(After(t, ops[0]), ops[1..]);
    }
  }

  // ---------- The guards are exact ----------

  lemma OtherAdminMeaning(t: Tables, w: nat, u: nat)
    ensures OtherAdmin(t, w, u) <==> exists v :: v != u && IsAdmin(t, w, v)
  {
    if OtherAdmin(t, w, u) {
      var s :| s in t.members && s.workspace == w && s.user != u && t.members[s] == Membership(Admin, Active);
      assert s == Seat(w, s.user);
      assert IsAdmin(t, w, s.user);
    }
    if v :| v != u && IsAdmin(t, w, v) {
      assert Seat(w, v) in t.members && t.members[Seat(w, v)] == Membership(Admin, Active);
    }
  }

  /** An admin's change of an active member's role is refused exactly when it would leave
      the workspace without an active admin. */
  lemma RoleChangeRefusedIffUngoverned(t: Tables, w: nat, actor: nat, member: nat, role: Role)
    requires IsAdmin(t, w, actor) && IsActive(t, w, member)
    ensures ChangeMemberRole(t, w, actor, member, Some(role)).Err? <==> !HasAdmin(WithRole(t, w, member, role), w)
  {
    var after := WithRole(t, w, member, role);
    OtherAdminMeaning(t, w, member);
    assert forall v :: v != member ==> (IsAdmin(after, w, v) <==> IsAdmin(t, w, v));
    assert IsAdmin(after, w, member) <==> role.Admin?;
    if !IsAdmin(t, w, member) {
      assert actor != member;
    }
  }

  /** Removing an active member is refused exactly when it would leave the workspace
      without an active admin. */
  lemma RemovalRefusedIffUngoverned(t: Tables, w: nat, actor: nat, member: nat)
    requires IsAdmin(t, w, actor) && IsActive(t, w, member)
    ensures RemoveTeamMember(t, w, actor, member).Err? <==> !HasAdmin(WithoutMember(t, w, member), w)
  {
    var after := WithoutMember(t, w, member);
    OtherAdminMeaning(t, w, member);
    assert forall v :: v != member ==> (IsAdmin(after, w, v) <==> IsAdmin(t, w, v));
    assert !IsAdmin(after, w, member);
    if !IsAdmin(t, w, member) {
      assert actor != member;
    }
  }

  /** Deleting an account is refused exactly when some workspace with another active
      member would be left without an active admin. */
  lemma DeletionRefusedIffUngoverned(t: Tables, user: nat)
    requires Inv(t)
    ensures DeleteAccount(t, user).Err?
       <==> !Governed(Purge(t, SoloWorkspaces(t, SeatsOf(t, user)), user))
  {
    if DeleteAccount(t, user).Err? {
      var s :| s in SeatsOf(t, user) && IsIndispensable(t, s);
      var after := Purge(t, SoloWorkspaces(t, SeatsOf(t, user)), user);
      assert s.workspace in after.workspaces;
      OtherAdminMeaning(t, s.workspace, user);
      if u :| IsAdmin(after, s.workspace, u) {
        assert false;
      }
    } else {
      DeleteKeepsGoverned(t, user);
    }
  }

  /** A successful deletion removes exactly the workspaces in which the user was the only
      active member, the user's own seats, and nobody else's seat elsewhere. */
  lemma DeletionRemovesExactly(t: Tables, user: nat)
    requires Inv(t) && DeleteAccount(t, user).Ok?
    ensures var after := DeleteAccount(t, user).value;
            && (forall w :: w in t.workspaces - after.workspaces
                       <==> w in t.workspaces && IsActive(t, w, user) && forall v :: IsActive(t, w, v) ==> v == user)
            && (forall s :: s in after.members <==> s in t.members && s.user != user && s.workspace in after.workspaces)
            && (forall s :: s in after.members ==> after.members[s] == t.members[s])
  {
    var after := DeleteAccount(t, user).value;
    forall w | w in t.workspaces
      ensures w !in after.workspaces <==> IsActive(t, w, user) && forall v :: IsActive(t, w, v) ==> v == user
    {
      SoloMeaning(t, w, user);
    }
  }

  lemma SoloMeaning(t: Tables, w: nat, user: nat)
    ensures w in SoloWorkspaces(t, SeatsOf(t, user))
       <==> IsActive(t, w, user) && forall v :: IsActive(t, w, v) ==> v == user
  {
    if w in SoloWorkspaces(t, SeatsOf(t, user)) {
      var s :| s in SeatsOf(t, user) && s.workspace == w && !OtherActive(t, w, user);
      assert s == Seat(w, user);
      forall v | IsActive(t, w, v) ensures v == user {
        assert Seat(w, v) in t.members;
      }
    }
    if IsActive(t, w, user) && forall v :: IsActive(t, w, v) ==> v == user {
      assert Seat(w, user) in SeatsOf(t, user);
      if OtherActive(t, w, user) {
        var s :| s in t.members && s.workspace == w && s.user != user && t.members[s].standing.Active?;
        assert s == Seat(w, s.user);
        assert IsActive(t, w, s.user);
        assert false;
      }
    }
  }

  // ---------- Who may gain what ----------

  /** Nobody becomes an admin except by creating the workspace or by the decision of one
      of its active admins; joining never promotes and never demotes. */
  lemma AdminsAreMadeByAdmins(t: Tables, op: Op, w: nat, u: nat)
    requires Inv(t) && IsAdmin(After(t, op), w, u) && !IsAdmin(t, w, u)
    ensures || (op.Create? && op.actor == u && w == t.nextKey)
            || (Promotes(op, w, u) && IsAdmin(t, w, op.actor))
  {
  }

  /** Nobody becomes an active member without acting: by creating the workspace, accepting
      an invitation addressed to them, or redeeming a code that was still redeemable. */
  lemma JoiningNeedsConsent(t: Tables, op: Op, w: nat, u: nat)
    requires Inv(t) && IsActive(After(t, op), w, u) && !IsActive(t, w, u)
    ensures op.actor == u
    ensures || (op.Create? && w !in t.workspaces)
            || (op.Respond? && op.invitation in t.invitations
                && t.invitations[op.invitation] == Invitation(w, u, Unanswered))
            || (op.Redeem? && op.code in t.codes && t.codes[op.code].workspace == w
                && IsRedeemable(t.codes[op.code], op.now))
  {
  }

  /** A user who takes no step in a run gains no active seat by it. */
  lemma {:induction false} BystandersGainNothing(t: Tables, ops: seq<Op>, w: nat, u: nat)
    requires Inv(t) && forall n :: 0 <= n < |ops| ==> ops[n].actor != u
    ensures IsActive(Run(t, ops), w, u) ==> IsActive(t, w, u)
    decreases |ops|
  {
    if ops != [] {
      StepKeepsInv(t, ops[0]);
      BystandersGainNothing(After(t, ops[0]), ops[1..], w, u);
      if IsActive(After(t, ops[0]), w, u) && !IsActive(t, w, u) {
        JoiningNeedsConsent(t, ops[0], w, u);
      }
    }
  }

  predicate Promotes(op: Op, w: nat, u: nat) {
    op.ChangeRole? && op.workspace == w && op.member == u && op.role == Some(Admin)
  }

  /** In an existing workspace -- or one that was deleted -- nobody becomes an admin in a
      run without a role change for them, whatever else they redeem, accept or create. */
  lemma {:induction false} NobodyIsPromotedUnasked(t: Tables, ops: seq<Op>, w: nat, u: nat)
    requires Inv(t) && w < t.nextKey && forall n :: 0 <= n < |ops| ==> !Promotes(ops[n], w, u)
    ensures IsAdmin(Run(t, ops), w, u) ==> IsAdmin(t, w, u)
    decreases |ops|
  {
    if ops != [] {
      StepKeepsInv(t, ops[0]);
      NobodyIsPromotedUnasked(After(t, ops[0]), ops[1..], w, u);
      if IsAdmin(After(t, ops[0]), w, u) && !IsAdmin(t, w, u) {
        AdminsAreMadeByAdmins(t, ops[0], w, u);
      }
    }
  }

  // ---------- Invite codes over a run ----------

  predicate Redeems(t: Tables, op: Op, c: nat) {
    op.Redeem? && op.code == c && Serve(t, op).Ok?
  }

  /** How many redemptions of code `c` succeed in a run. */
  function Redemptions(t: Tables, ops: seq<Op>, c: nat): nat
    decreases |ops|
  {
    if ops == [] then 0 else (if Redeems(t, ops[0], c) then 1 else 0) + Redemptions(After(t, ops[0]), ops[1..], c)
  }

  lemma CodeStep(t: Tables, op: Op, c: nat)
    requires Inv(t) && c in t.codes && c in After(t, op).codes
    ensures After(t, op).codes[c].maxUses == t.codes[c].maxUses
    ensures After(t, op).codes[c].useCount == t.codes[c].useCount + (if Redeems(t, op, c) then 1 else 0)
  {
  }

  lemma RedeemedStays(t: Tables, op: Op, c: nat)
    requires Redeems(t, op, c)
    ensures c in t.codes && c in After(t, op).codes
  {
  }

  lemma StaysDeleted(t: Tables, op: Op, c: nat)
    requires c !in t.codes && c < t.nextKey
    ensures c !in After(t, op).codes && !Redeems(t, op, c)
  {
  }

  /** A deleted code stays unknown: its key is not handed out again. */
  lemma {:induction false} DeletedCodeIsDead(t: Tables, ops: seq<Op>, c: nat)
    requires Inv(t) && c !in t.codes && c < t.nextKey
    ensures Redemptions(t, ops, c) == 0 && c !in Run(t, ops).codes
    decreases |ops|
  {
    if ops != [] {
      StepKeepsInv(t, ops[0]);
      StaysDeleted(t, ops[0], c);
      DeletedCodeIsDead(After(t, ops[0]), ops[1..], c);
    }
  }

  /** Over every run the use count counts the successful redemptions, and a code with a
      limit is redeemed at most that often, even if it is deleted on the way. */
  lemma {:induction false} RedemptionsAreCounted(t: Tables, ops: seq<Op>, c: nat)
    requires Inv(t) && c in t.codes
    ensures c in Run(t, ops).codes ==>
              && Run(t, ops).codes[c].useCount == t.codes[c].useCount + Redemptions(t, ops, c)
              && Run(t, ops).codes[c].maxUses == t.codes[c].maxUses
    ensures t.codes[c].maxUses.Some? ==> t.codes[c].useCount + Redemptions(t, ops, c) <= t.codes[c].maxUses.value
    decreases |ops|
  {
    if ops != [] {
      var next := After(t, ops[0]);
      StepKeepsInv(t, ops[0]);
      if c in next.codes {
        CodeStep(t, ops[0], c);
        RedemptionsAreCounted(next, ops[1..], c);
      } else {
        if Redeems(t, ops[0], c) {
          RedeemedStays(t, ops[0], c);
          assert false;
        }
        DeletedCodeIsDead(next, ops[1..], c);
      }
    }
  }

  /** A member's redemption changes no seat but still counts. */
  lemma MemberSpendsAUse(t: Tables, u: nat, c: nat, now: int)
    requires c in t.codes && IsRedeemable(t.codes[c], now) && IsActive(t, t.codes[c].workspace, u)
    ensures var after := After(t, Redeem(u, c, now));
            && after.members == t.members && c in after.codes
            && after.codes[c].(isActive := true) == t.codes[c].(useCount := t.codes[c].useCount + 1)
            && (after.codes[c].isActive <==>
                  (t.codes[c].maxUses.Some? ==> t.codes[c].useCount + 1 < t.codes[c].maxUses.value))
  {
  }

  function Repeat(op: Op, times: nat): seq<Op> {
    seq(times, _ => op)
  }

  /** So one member alone can use a limited code up: after as many redemptions as were left,
      no seat has changed and nobody can redeem the code. */
  lemma {:induction false} MemberExhaustsCode(t: Tables, u: nat, c: nat, now: int, left: nat)
    requires c in t.codes && IsRedeemable(t.codes[c], now) && IsActive(t, t.codes[c].workspace, u)
    requires t.codes[c].maxUses.Some? && t.codes[c].maxUses.value == t.codes[c].useCount + left
    ensures var after := Run(t, Repeat(Redeem(u, c, now), left));
            && after.members == t.members && c in after.codes
            && forall later :: !IsRedeemable(after.codes[c], later)
    decreases left
  {
    var op := Redeem(u, c, now);
    var ops, next := Repeat(op, left), After(t, op);
    MemberSpendsAUse(t, u, c, now);
    assert ops[0] == op && ops[1..] == Repeat(op, left - 1);
    if left > 1 {
      MemberExhaustsCode(next, u, c, now, left - 1);
    } else {
      assert Repeat(op, 0) == [];
    }
  }
}
