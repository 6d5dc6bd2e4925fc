/** When each membership service is refused, and what it leaves in every row, said of the
    tables before the call. */
module MembershipOutcomes {
  import opened Options
  import opened Membership

  // ---------- Refusals ----------

  /** The row of an active admin. */
  predicate Governs(t: Tables, w: nat, u: nat) {
    Seat(w, u) in t.members && t.members[Seat(w, u)] == Membership(Admin, Active)
  }

  predicate TakesPart(t: Tables, w: nat, u: nat) {
    Seat(w, u) in t.members && t.members[Seat(w, u)].standing == Active
  }

  /** Nobody but the user governs the workspace. */
  ghost predicate AloneGoverns(t: Tables, w: nat, u: nat) {
    Governs(t, w, u) && forall v :: Governs(t, w, v) ==> v == u
  }

  /** Deletion would leave other active members without an admin. */
  ghost predicate Deserts(t: Tables, w: nat, u: nat) {
    AloneGoverns(t, w, u) && exists v :: v != u && TakesPart(t, w, v)
  }

  /** The fault a service raises, if any, in the order of its checks. */
  ghost function FaultOf(t: Tables, op: Op): Option<Fault> {
    match op
    case Create(_, kindIsKnown) => if kindIsKnown then None else Some(Invalid)
    case Issue(w, actor, _, _) => if Governs(t, w, actor) then None else Some(PermissionDenied)
    case Invite(w, actor, invitee) =>
      if !Governs(t, w, actor) then Some(PermissionDenied)
      else if TakesPart(t, w, invitee) then Some(Invalid) else None
    case Respond(id, actor, _) =>
      if id in t.invitations && t.invitations[id] == Invitation(t.invitations[id].workspace, actor, Unanswered)
      then None else Some(DoesNotExist)
    case Redeem(_, code, now) =>
      if code in t.codes && t.codes[code].isActive && HasTime(t.codes[code], now) && HasUses(t.codes[code])
      then None else Some(Invalid)
    case ChangeRole(w, actor, member, role) =>
      if !Governs(t, w, actor) then Some(PermissionDenied)
      else if role == None then Some(Invalid)
      else if !TakesPart(t, w, member) then Some(DoesNotExist)
      else if role == Some(Member) && AloneGoverns(t, w, member) then Some(Invalid) else None
    case Remove(w, actor, member) =>
      if !Governs(t, w, actor) then Some(PermissionDenied)
      else if !TakesPart(t, w, member) then Some(DoesNotExist)
      else if AloneGoverns(t, w, member) then Some(Invalid) else None
    case Delete(user) => if exists w :: Deserts(t, w, user) then Some(Invalid) else None
  }

  predicate HasTime(code: InviteCode, now: int) {
    code.expiresAt == None || code.expiresAt.value > now
  }

  predicate HasUses(code: InviteCode) {
    code.maxUses == None || code.maxUses.value > code.useCount
  }

  lemma DesertsIff(t: Tables, user: nat)
    ensures (exists s :: s in SeatsOf(t, user) && IsIndispensable(t, s)) <==> exists w :: Deserts(t, w, user)
  {
    forall w ensures Deserts(t, w, user) <==> Seat(w, user) in SeatsOf(t, user) && IsIndispensable(t, Seat(w, user)) {
      OtherAdminMeaning(t, w, user);
      assert forall v :: Governs(t, w, v) <==> IsAdmin(t, w, v);
      if OtherActive(t, w, user) {
        var s :| s in t.members && s.workspace == w && s.user != user && t.members[s].standing.Active?;
        assert s == Seat(w, s.user) && TakesPart(t, w, s.user);
      }
      if v :| v != user && TakesPart(t, w, v) {
        assert Seat(w, v) in t.members;
      }
    }
    if s :| s in SeatsOf(t, user) && IsIndispensable(t, s) {
      assert s == Seat(s.workspace, user);
      assert Deserts(t, s.workspace, user);
    }
  }

  lemma AloneGovernsIff(t: Tables, w: nat, u: nat)
    ensures AloneGoverns(t, w, u) <==> IsAdmin(t, w, u) && !OtherAdmin(t, w, u)
  {
    OtherAdminMeaning(t, w, u);
    assert forall v :: Governs(t, w, v) <==> IsAdmin(t, w, v);
  }

  /** A service is served exactly if nothing speaks against it, and otherwise raises the fault
      that the first failing check names. */
  lemma RefusedIff(t: Tables, op: Op)
    ensures match Serve(t, op)
            case Ok(_) => FaultOf(t, op) == None
            case Err(fault) => FaultOf(t, op) == Some(fault)
  {
    match op
    case ChangeRole(w, _, member, _) => AloneGovernsIff(t, w, member);
    case Remove(w, _, member) => AloneGovernsIff(t, w, member);
    case Delete(user) => DesertsIff(t, user);
    case _ =>
  }

  // ---------- Seats ----------

  function SeatIn(t: Tables, s: Seat): Option<Membership> {
    if s in t.members then Some(t.members[s]) else None
  }

  /** Someone who joins is an active member, unless they took part already. */
  function Seated(t: Tables, s: Seat): Option<Membership> {
    if TakesPart(t, s.workspace, s.user) then SeatIn(t, s) else Some(Membership(Member, Active))
  }

  /** The workspaces that go with a user: those in which nobody else takes part. */
  ghost predicate GoesWith(t: Tables, w: nat, user: nat) {
    TakesPart(t, w, user) && forall v :: TakesPart(t, w, v) ==> v == user
  }

  /** What a served operation leaves in a seat. */
  ghost function SeatAfter(t: Tables, op: Op, s: Seat): Option<Membership> {
    match op
    case Create(actor, _) => if s == Seat(t.nextKey, actor) then Some(Membership(Admin, Active)) else SeatIn(t, s)
    case Respond(id, actor, accept) =>
      if accept && id in t.invitations && s == Seat(t.invitations[id].workspace, actor) then Seated(t, s)
      else SeatIn(t, s)
    case Redeem(actor, code, _) =>
      if code in t.codes && s == Seat(t.codes[code].workspace, actor) then Seated(t, s) else SeatIn(t, s)
    case ChangeRole(w, _, member, role) =>
      if s == Seat(w, member) && role.Some? then Some(Membership(role.value, Active)) else SeatIn(t, s)
    case Remove(w, _, member) => if s == Seat(w, member) then None else SeatIn(t, s)
    case Delete(user) => if s.user == user || GoesWith(t, s.workspace, user) then None else SeatIn(t, s)
    case _ => SeatIn(t, s)
  }

  lemma GoesWithIff(t: Tables, w: nat, user: nat)
    ensures GoesWith(t, w, user) <==> w in SoloWorkspaces(t, SeatsOf(t, user))
  {
    SoloMeaning(t, w, user);
    assert forall v :: TakesPart(t, w, v) <==> IsActive(t, w, v);
  }

  /** Seat by seat: an accepted invitation and a redeemed code seat the user as a member, a
      declined one seats nobody, and no service touches any other seat. */
  lemma SeatMeaning(t: Tables, op: Op, s: Seat)
    ensures SeatIn(After(t, op), s) == if FaultOf(t, op).None? then SeatAfter(t, op, s) else SeatIn(t, s)
  {
    RefusedIff(t, op);
    if op.Delete? {
      GoesWithIff(t, s.workspace, op.actor);
    }
  }

  // ---------- Codes, invitations, workspaces ----------

  /** A served redemption counts one use and leaves the code active while uses remain; a new
      code starts active and unused; deletion takes the codes of the workspaces that go. */
  lemma CodeMeaning(t: Tables, op: Op, c: nat)
    requires Linked(t)
    ensures var after := After(t, op);
            if FaultOf(t, op).Some? then after.codes == t.codes
            else if op.Issue? && c == t.nextKey then
              c in after.codes && after.codes[c] == InviteCode(op.workspace, true, op.maxUses, 0, op.expiresAt)
            else if op.Redeem? && c == op.code then
              && c in t.codes && c in after.codes
              && after.codes[c] == t.codes[c].(useCount := t.codes[c].useCount + 1, isActive := after.codes[c].isActive)
              && (after.codes[c].isActive <==> HasUses(after.codes[c]))
            else if op.Delete? then
              && (c in after.codes <==> c in t.codes && !GoesWith(t, t.codes[c].workspace, op.actor))
              && (c in after.codes ==> after.codes[c] == t.codes[c])
            else (c in after.codes <==> c in t.codes) && (c in t.codes ==> after.codes[c] == t.codes[c])
  {
    RefusedIff(t, op);
    if op.Delete? && c in t.codes {
      GoesWithIff(t, t.codes[c].workspace, op.actor);
    }
  }

  /** The answer is recorded once; an open invitation is not doubled; deletion takes the
      invitations of the user and of the workspaces that go. */
  lemma InvitationMeaning(t: Tables, op: Op, i: nat)
    requires Linked(t)
    ensures var after := After(t, op);
            if FaultOf(t, op).Some? then after.invitations == t.invitations
            else if op.Respond? && i == op.invitation then
              && i in t.invitations && i in after.invitations
              && after.invitations[i] == t.invitations[i].(answer := if op.accept then Accepted else Declined)
            else if op.Invite? && i == t.nextKey then
              if exists j :: j in t.invitations && t.invitations[j] == Invitation(op.workspace, op.invitee, Unanswered)
              then i !in after.invitations
              else i in after.invitations && after.invitations[i] == Invitation(op.workspace, op.invitee, Unanswered)
            else if op.Delete? then
              && (i in after.invitations <==> i in t.invitations && t.invitations[i].invitee != op.actor
                                              && !GoesWith(t, t.invitations[i].workspace, op.actor))
              && (i in after.invitations ==> after.invitations[i] == t.invitations[i])
            else (i in after.invitations <==> i in t.invitations)
                 && (i in t.invitations ==> after.invitations[i] == t.invitations[i])
  {
    RefusedIff(t, op);
    if op.Delete? && i in t.invitations {
      GoesWithIff(t, t.invitations[i].workspace, op.actor);
    }
  }

  /** Workspaces come with a creation and go with their only active member. */
  lemma WorkspaceMeaning(t: Tables, op: Op, w: nat)
    ensures w in After(t, op).workspaces
       <==> if FaultOf(t, op).Some? then w in t.workspaces
            else if op.Create? then w in t.workspaces || w == t.nextKey
            else if op.Delete? then w in t.workspaces && !GoesWith(t, w, op.actor)
            else w in t.workspaces
  {
    RefusedIff(t, op);
    if op.Delete? {
      GoesWithIff(t, w, op.actor);
    }
  }
}
