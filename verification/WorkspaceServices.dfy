/** The services of `workspaces/services.py` over the stored tables, each in one
    transaction: a fault leaves every table as it was. */
module WorkspaceServices {
  import opened Options
  import opened Membership

  /** What a service leaves behind is what the step on the tables says. */
  ghost predicate Answers(served: Result<Tables, Fault>, before: Tables, after: Tables, fault: Option<Fault>) {
    match served
    case Ok(tables) => fault == None && after == tables
    case Err(error) => fault == Some(error) && after == before
  }

  lemma SoloGrows(t: Tables, seats: set<Seat>, todo: set<Seat>, seat: Seat)
    requires seat in todo && todo <= seats
    ensures SoloWorkspaces(t, seats - (todo - {seat}))
         == SoloWorkspaces(t, seats - todo)
            + (if OtherActive(t, seat.workspace, seat.user) then {} else {seat.workspace})
  {
    assert seats - (todo - {seat}) == (seats - todo) + {seat};
  }

  class WorkspaceDatabase {
    var workspaces: set<nat>
    var members: map<Seat, Membership>
    var codes: map<nat, InviteCode>
    var invitations: map<nat, Invitation>
    var nextKey: nat

    function View(): Tables
      reads this
    {
      Tables(workspaces, members, codes, invitations, nextKey)
    }

    constructor ()
      ensures Inv(View()) && workspaces == {}
    {
      workspaces, members, codes, invitations, nextKey := {}, map[], map[], map[], 0;
    }

    method CreateWorkspace(actor: nat, kindIsKnown: bool) returns (fault: Option<Fault>)
      requires Inv(View())
      modifies this
      ensures Inv(View()) && View() == After(old(View()), Create(actor, kindIsKnown))
      ensures Answers(Serve(old(View()), Create(actor, kindIsKnown)), old(View()), View(), fault)
    {
      StepKeepsInv(View(), Create(actor, kindIsKnown));
      if !kindIsKnown {
        return Some(Invalid);
      }
      var w := nextKey;
      workspaces := workspaces + {w};
      members := members[Seat(w, actor) := Membership(Admin, Active)];
      nextKey := w + 1;
      fault := None;
    }

    method IssueInviteCode(w: nat, actor: nat, maxUses: Option<nat>, expiresAt: Option<int>)
      returns (fault: Option<Fault>)
      requires Inv(View())
      modifies this
      ensures Inv(View())
      ensures Answers(Serve(old(View()), Issue(w, actor, maxUses, expiresAt)), old(View()), View(), fault)
    {
      StepKeepsInv(View(), Issue(w, actor, maxUses, expiresAt));
      if !IsAdmin(View(), w, actor) {
        return Some(PermissionDenied);
      }
      codes := codes[nextKey := InviteCode(w, true, maxUses, 0, expiresAt)];
      nextKey := nextKey + 1;
      fault := None;
    }

    method InviteExistingUser(w: nat, actor: nat, invitee: nat) returns (fault: Option<Fault>)
      requires Inv(View())
      modifies this
      ensures Inv(View())
      ensures Answers(Serve(old(View()), Invite(w, actor, invitee)), old(View()), View(), fault)
    {
      StepKeepsInv(View(), Invite(w, actor, invitee));
      if !IsAdmin(View(), w, actor) {
        return Some(PermissionDenied);
      }
      if IsActive(View(), w, invitee) {
        return Some(Invalid);
      }
      if !HasOpenInvitation(View(), w, invitee) {
        invitations := invitations[nextKey := Invitation(w, invitee, Unanswered)];
        nextKey := nextKey + 1;
      }
      fault := None;
    }

    /** `get_or_create`, then activation of a waiting row. */
    method JoinWorkspace(w: nat, user: nat)
      modifies this`members
      ensures View() == Join(old(View()), w, user)
    {
      var seat := Seat(w, user);
      if seat !in members {
        members := members[seat := Membership(Member, Active)];
      } else if !members[seat].standing.Active? {
        members := members[seat := members[seat].(standing := Active, role := Member)];
      }
    }

    method RespondToInvitation(id: nat, actor: nat, accept: bool) returns (fault: Option<Fault>)
      requires Inv(View())
      modifies this
      ensures Inv(View())
      ensures Answers(Serve(old(View()), Respond(id, actor, accept)), old(View()), View(), fault)
    {
      StepKeepsInv(View(), Respond(id, actor, accept));
      if id !in invitations || invitations[id].invitee != actor || invitations[id].answer != Unanswered {
        return Some(DoesNotExist);
      }
      var w := invitations[id].workspace;
      invitations := invitations[id := invitations[id].(answer := if accept then Accepted else Declined)];
      if accept {
        JoinWorkspace(w, actor);
      }
      fault := None;
    }

    method RedeemInviteCode(actor: nat, code: nat, now: int) returns (fault: Option<Fault>)
      requires Inv(View())
      modifies this
      ensures Inv(View())
      ensures Answers(Serve(old(View()), Redeem(actor, code, now)), old(View()), View(), fault)
    {
      StepKeepsInv(View(), Redeem(actor, code, now));
      if code !in codes || !IsRedeemable(codes[code], now) {
        return Some(Invalid);
      }
      var invite := codes[code];
      JoinWorkspace(invite.workspace, actor);
      invite := invite.(useCount := invite.useCount + 1);
      if invite.maxUses.Some? && invite.useCount >= invite.maxUses.value {
        invite := invite.(isActive := false);
      }
      codes := codes[code := invite];
      fault := None;
    }

    method ChangeMemberRole(w: nat, actor: nat, member: nat, role: Option<Role>) returns (fault: Option<Fault>)
      requires Inv(View())
      modifies this
      ensures Inv(View())
      ensures Answers(Serve(old(View()), ChangeRole(w, actor, member, role)), old(View()), View(), fault)
    {
      StepKeepsInv(View(), ChangeRole(w, actor, member, role));
      if !IsAdmin(View(), w, actor) {
        return Some(PermissionDenied);
      }
      if role.None? {
        return Some(Invalid);
      }
      if !IsActive(View(), w, member) {
        return Some(DoesNotExist);
      }
      var seat := Seat(w, member);
      if members[seat].role.Admin? && role.value.Member? && !OtherAdmin(View(), w, member) {
        return Some(Invalid);
      }
      members := members[seat := members[seat].(role := role.value)];
      fault := None;
    }

    method RemoveTeamMember(w: nat, actor: nat, member: nat) returns (fault: Option<Fault>)
      requires Inv(View())
      modifies this
      ensures Inv(View())
      ensures Answers(Serve(old(View()), Remove(w, actor, member)), old(View()), View(), fault)
    {
      StepKeepsInv(View(), Remove(w, actor, member));
      if !IsAdmin(View(), w, actor) {
        return Some(PermissionDenied);
      }
      if !IsActive(View(), w, member) {
        return Some(DoesNotExist);
      }
      if members[Seat(w, member)].role.Admin? && !OtherAdmin(View(), w, member) {
        return Some(Invalid);
      }
      members := members - {Seat(w, member)};
      fault := None;
    }

    /** The workspaces an account takes along, or None if its deletion must be refused.
        The seats come in no particular order; the result does not depend on it. */
    method SoloWorkspacesOf(user: nat) returns (found: Option<set<nat>>)
      ensures found.None? <==> exists s :: s in SeatsOf(View(), user) && IsIndispensable(View(), s)
      ensures found.Some? ==> found.value == SoloWorkspaces(View(), SeatsOf(View(), user))
    {
      ghost var tables := View();
      var seats := SeatsOf(View(), user);
      var solo: set<nat> := {};
      var todo := seats;
      while todo != {}
        invariant todo <= seats
        invariant forall s :: s in seats - todo ==> !IsIndispensable(tables, s)
        invariant solo == SoloWorkspaces(tables, seats - todo)
        decreases |todo|
      {
        var seat :| seat in todo;
        SoloGrows(tables, seats, todo, seat);
        todo := todo - {seat};
        if !OtherActive(View(), seat.workspace, user) {
          solo := solo + {seat.workspace};
        } else if members[seat].role.Admin? {
          if !OtherAdmin(View(), seat.workspace, user) {
            return None;
          }
        }
      }
      assert seats - todo == seats;
      found := Some(solo);
    }

    method DeleteAccount(user: nat) returns (fault: Option<Fault>)
      requires Inv(View())
      modifies this
      ensures Inv(View())
      ensures Answers(Serve(old(View()), Delete(user)), old(View()), View(), fault)
    {
      StepKeepsInv(View(), Delete(user));
      var solo := SoloWorkspacesOf(user);
      if solo.None? {
        return Some(Invalid);
      }
      DeleteWorkspaces(solo.value);
      DeleteUser(user);
      fault := None;
    }

    /** Deletes workspaces with everything that refers to them. */
    method DeleteWorkspaces(ids: set<nat>)
      modifies this
      ensures View() == WithoutWorkspaces(old(View()), ids)
    {
      workspaces := workspaces - ids;
      members := map s | s in members && s.workspace !in ids :: members[s];
      codes := map c | c in codes && codes[c].workspace !in ids :: codes[c];
      invitations := map i | i in invitations && invitations[i].workspace !in ids :: invitations[i];
    }

    /** Deletes a user's seats and the invitations sent to them. */
    method DeleteUser(user: nat)
      modifies this`members, this`invitations
      ensures View() == WithoutUser(old(View()), user)
    {
      members := map s | s in members && s.user != user :: members[s];
      invitations := map i | i in invitations && invitations[i].invitee != user :: invitations[i];
    }
  }
}
