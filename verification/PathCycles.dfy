/** When a move closes a cycle in the parent links, whatever the stored paths say. */
module PathCycles {
  import opened Options
  import opened PathTree

  /** The node or one of its ancestors is `a`. */
  ghost predicate HasAncestor(t: Table, d: int, a: int) {
    exists steps: nat :: Ancestor(t, d, steps) == Some(a)
  }

  ghost predicate Acyclic(t: Table) {
    forall id :: !OnCycle(t, id)
  }

  lemma {:induction false} AncestorFromParent(t: Table, d: int, steps: nat)
    requires d in t && t[d].parent.Some?
    ensures Ancestor(t, d, steps + 1) == Ancestor(t, t[d].parent.value, steps)
  {
    if steps > 0 {
      AncestorFromParent(t, d, steps - 1);
    }
  }

  /** Climbing in two stages. */
  lemma {:induction false} AncestorOfAncestor(t: Table, x: int, first: nat, more: nat)
    requires Ancestor(t, x, first).Some?
    ensures Ancestor(t, x, first + more) == Ancestor(t, Ancestor(t, x, first).value, more)
  {
    if more > 0 {
      AncestorOfAncestor(t, x, first, more - 1);
    }
  }

  lemma {:induction false} ClimbEnds(t: Table, x: int, first: nat, more: nat)
    requires Ancestor(t, x, first).None?
    ensures Ancestor(t, x, first + more).None?
  {
    if more > 0 {
      ClimbEnds(t, x, first, more - 1);
    }
  }

  /** The tables differ in nothing but the row of `id`. */
  ghost predicate SameLinksBut(t: Table, u: Table, id: int) {
    t.Keys == u.Keys && forall x :: x in t && x != id ==> t[x].parent == u[x].parent
  }

  /** A climb that has not met `id` before goes the same way in both. */
  lemma {:induction false} SameClimb(t: Table, u: Table, id: int, x: int, steps: nat)
    requires SameLinksBut(t, u, id) && forall j: nat :: j < steps ==> Ancestor(t, x, j) != Some(id)
    ensures Ancestor(u, x, steps) == Ancestor(t, x, steps)
  {
    if steps > 0 {
      SameClimb(t, u, id, x, steps - 1);
      assert Ancestor(t, x, steps - 1) != Some(id);
    }
  }

  lemma {:induction false} FirstMeeting(t: Table, x: int, id: int, steps: nat) returns (first: nat)
    requires Ancestor(t, x, steps) == Some(id)
    ensures first <= steps && Ancestor(t, x, first) == Some(id)
    ensures forall j: nat :: j < first ==> Ancestor(t, x, j) != Some(id)
  {
    if j: nat :| j < steps && Ancestor(t, x, j) == Some(id) {
      first := FirstMeeting(t, x, id, j);
    } else {
      first := steps;
    }
  }

  lemma SameMeeting(t: Table, u: Table, id: int, x: int, steps: nat)
    requires SameLinksBut(t, u, id) && Ancestor(t, x, steps) == Some(id)
    ensures HasAncestor(u, x, id)
  {
    var first := FirstMeeting(t, x, id, steps);
    SameClimb(t, u, id, x, first);
  }

  /** A cycle of the new links passes through the moved node. */
  lemma CyclePassesMoved(t: Table, u: Table, id: int, x: int, steps: nat)
    requires SameLinksBut(t, u, id) && Acyclic(t) && steps > 0 && Ancestor(u, x, steps) == Some(x)
    ensures Ancestor(u, id, steps) == Some(id)
  {
    if j: nat :| j < steps && Ancestor(u, x, j) == Some(id) {
      AncestorOfAncestor(u, x, steps, j);
      AncestorOfAncestor(u, x, j, steps);
    } else {
      SameClimb(u, t, id, x, steps);
      assert OnCycle(t, x);
      assert false;
    }
  }

  lemma MoveChangesOneLink(t: Table, loaded: Node, req: Request)
    requires Admissible(t, loaded, req)
    ensures var r := MovedRows(t, loaded, req);
            SameLinksBut(t, r, req.id) && r[req.id].parent == TargetParent(loaded, req)
  {
    forall d | d in t && d != req.id ensures MovedRows(t, loaded, req)[d].parent == t[d].parent {
      OtherRow(t, loaded, req, d);
    }
  }

  lemma NewLinkCloses(t: Table, u: Table, id: int, target: int)
    requires SameLinksBut(t, u, id) && id in u && u[id].parent == Some(target) && HasAncestor(t, target, id)
    ensures OnCycle(u, id)
  {
    var steps: nat :| Ancestor(t, target, steps) == Some(id);
    SameMeeting(t, u, id, target, steps);
    var again: nat :| Ancestor(u, target, again) == Some(id);
    AncestorFromParent(u, id, again);
  }

  lemma ClosedByNewLink(t: Table, u: Table, id: int, x: int)
    requires SameLinksBut(t, u, id) && id in u && Acyclic(t) && OnCycle(u, x)
    ensures u[id].parent.Some? && HasAncestor(t, u[id].parent.value, id)
  {
    var steps: nat :| steps > 0 && Ancestor(u, x, steps) == Some(x);
    CyclePassesMoved(t, u, id, x, steps);
    if u[id].parent.None? {
      assert Ancestor(u, id, 0) == Some(id);
      ClimbEnds(u, id, 1, steps - 1);
    }
    AncestorFromParent(u, id, steps - 1);
    SameLinksBothWays(t, u, id);
    SameMeeting(u, t, id, u[id].parent.value, steps - 1);
  }

  /** In any table without cycles, indexed or not, and for any loaded object, a successful
      move closes a cycle exactly when the moved node is an ancestor of the target. */
  lemma MoveClosesCycleIff(t: Table, loaded: Node, req: Request, fault: bool)
    requires Acyclic(t) && Admissible(t, loaded, req) && Move(t, loaded, req, fault).Ok?
    ensures !Acyclic(Move(t, loaded, req, fault).value)
       <==> TargetParent(loaded, req).Some? && HasAncestor(t, TargetParent(loaded, req).value, req.id)
  {
    var r, target := MovedRows(t, loaded, req), TargetParent(loaded, req);
    MoveChangesOneLink(t, loaded, req);
    if target.Some? && HasAncestor(t, target.value, req.id) {
      NewLinkCloses(t, r, req.id, target.value);
    }
    if !Acyclic(r) {
      var x :| OnCycle(r, x);
      ClosedByNewLink(t, r, req.id, x);
    }
  }

  lemma SameLinksBothWays(t: Table, u: Table, id: int)
    requires SameLinksBut(t, u, id)
    ensures SameLinksBut(u, t, id)
  {
  }
}
