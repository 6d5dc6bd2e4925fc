/** Which moves are refused, which succeed, and what a successful one changes. */
module MoveOutcomes {
  import opened Options
  import opened Paths
  import opened PathTree

  /** An object in step with its row, in a table without slashes in names. */
  ghost predicate InOrder(t: Table, loaded: Node, req: Request) {
    Ready(t, loaded, req) && SlashFree(t) && UniquePaths(t) && '/' !in TargetName(loaded, req)
  }

  /** The refusal in terms of the links: another workspace, the node itself, or a folder below
      the node -- and nothing else. */
  lemma RefusalMeaning(t: Table, loaded: Node, req: Request)
    requires InOrder(t, loaded, req)
    ensures var target := TargetParent(loaded, req);
            && (Refusal(t, loaded, req) == Some(OtherWorkspace) <==>
                  target.Some? && t[target.value].workspace != t[req.id].workspace)
            && (Refusal(t, loaded, req) == Some(OwnParent) <==> target == Some(req.id))
            && (Refusal(t, loaded, req) == Some(IntoDescendant) <==>
                  target.Some? && target.value != req.id && t[target.value].workspace == t[req.id].workspace
                  && Below(t, req.id, target.value))
            && Refusal(t, loaded, req) != Some(DatabaseError)
  {
    var target := TargetParent(loaded, req);
    if target.Some? && t[target.value].workspace == t[req.id].workspace {
      PrefixTestIsAncestry(t, req.id, target.value);
    }
  }

  ghost predicate IsFree(t: Table, workspace: int, path: string, except: int) {
    forall d :: d in t && d != except && t[d].workspace == workspace ==> t[d].path != path
  }

  /** The path the update computes for a row it reaches. */
  function Replaced(t: Table, loaded: Node, req: Request, d: int): string
    requires HasTarget(t, loaded, req) && d in t
  {
    Replace(t[d].path, loaded.path + "/", NewPath(t, loaded, req) + "/")
  }

  /** The update gives no two of the rows it reaches the same path. */
  ghost predicate KeepsApart(t: Table, loaded: Node, req: Request)
    requires Admissible(t, loaded, req)
  {
    forall d, e ::
      d in t && e in t && d != e && Reached(t, loaded, d) && Reached(t, loaded, e) && Updates(t, loaded, req) ==>
      Replaced(t, loaded, req, d) != Replaced(t, loaded, req, e)
  }

  lemma ReachedIsReplaced(t: Table, loaded: Node, req: Request, d: int)
    requires InOrder(t, loaded, req) && d in t && Reached(t, loaded, d) && Updates(t, loaded, req)
    ensures d != req.id && MovedRows(t, loaded, req)[d].path == Replaced(t, loaded, req, d)
  {
    ReachedIsBelow(t, loaded, req, d);
    OtherRow(t, loaded, req, d);
  }

  lemma ReachedIsBelow(t: Table, loaded: Node, req: Request, d: int)
    requires InOrder(t, loaded, req) && d in t && Reached(t, loaded, d)
    ensures Below(t, req.id, d) && d != req.id
  {
    PrefixTestIsAncestry(t, req.id, d);
    NotBelowItself(t, req.id);
  }

  /** The rows the update finds end up under the new path, with something after it. */
  lemma ReachedGoesUnder(t: Table, loaded: Node, req: Request, d: int)
    requires InOrder(t, loaded, req) && d in t && Reached(t, loaded, d) && Updates(t, loaded, req)
    ensures StartsWith(MovedRows(t, loaded, req)[d].path, NewPath(t, loaded, req) + "/")
  {
    ReachedIsBelow(t, loaded, req, d);
    OtherRow(t, loaded, req, d);
    RestOfChild(t, req.id, d);
    var from, to := loaded.path + "/", NewPath(t, loaded, req) + "/";
    assert from[..|from| - 1] == loaded.path && to[..|to| - 1] == NewPath(t, loaded, req);
    ReplaceHead(Rest(t, req.id, d), from, to);
  }

  /** The prefixes of a stored path that end before a slash belong to ancestors: with the new
      path free, no row outside stands under it. */
  lemma {:induction false} NobodyUnderFreePath(t: Table, workspace: int, path: string, id: int, d: int)
    requires Indexed(t) && SlashFree(t) && id in t && d in t && IsFree(t, workspace, path, id)
    requires t[d].workspace == workspace && path != "" && t[id].path != path
    ensures !StartsWith(t[d].path, path + "/")
    decreases |t[d].path|
  {
    assert IndexedAt(t, d);
    PathShape(t, d);
    if StartsWith(t[d].path, path + "/") {
      if t[d].parent.None? {
        SlashPrefix("", t[d].name, path);
      } else {
        var p := t[d].parent.value;
        assert IndexedAt(t, p);
        SlashPrefix(t[p].path, t[d].name, path);
        NobodyUnderFreePath(t, workspace, path, id, p);
      }
    }
  }

  lemma OutsideKeepsClear(t: Table, loaded: Node, req: Request, d: int)
    requires InOrder(t, loaded, req) && Updates(t, loaded, req) && d in t && d != req.id && !Reached(t, loaded, d)
    requires IsFree(t, loaded.workspace, NewPath(t, loaded, req), req.id) && t[d].workspace == loaded.workspace
    ensures !StartsWith(t[d].path, NewPath(t, loaded, req) + "/")
  {
    NewPathEnd(t, loaded, req);
    NobodyUnderFreePath(t, loaded.workspace, NewPath(t, loaded, req), req.id, d);
  }

  lemma PairStaysApart(t: Table, loaded: Node, req: Request, d: int, e: int)
    requires InOrder(t, loaded, req) && KeepsApart(t, loaded, req)
    requires IsFree(t, loaded.workspace, NewPath(t, loaded, req), req.id)
    requires d in t && e in t && d != e && d != req.id && t[d].workspace == t[e].workspace
    ensures MovedRows(t, loaded, req)[d].path != MovedRows(t, loaded, req)[e].path
  {
    var newPath := NewPath(t, loaded, req);
    OtherRow(t, loaded, req, d);
    if e != req.id {
      OtherRow(t, loaded, req, e);
    }
    if Updates(t, loaded, req) && t[d].workspace == loaded.workspace {
      if Reached(t, loaded, d) {
        ReachedGoesUnder(t, loaded, req, d);
        ReachedIsReplaced(t, loaded, req, d);
        if e != req.id && Reached(t, loaded, e) {
          ReachedIsReplaced(t, loaded, req, e);
        }
        if e != req.id && !Reached(t, loaded, e) {
          OutsideKeepsClear(t, loaded, req, e);
        }
      } else if e != req.id && Reached(t, loaded, e) {
        ReachedGoesUnder(t, loaded, req, e);
        OutsideKeepsClear(t, loaded, req, d);
      }
    }
  }

  /** The old path of a row below is never the new path of the node. */
  lemma ReachedIsNotNewPath(t: Table, loaded: Node, req: Request, d: int)
    requires InOrder(t, loaded, req) && Refusal(t, loaded, req).None? && d in t && Reached(t, loaded, d)
    ensures t[d].path != NewPath(t, loaded, req)
  {
    if t[d].path == NewPath(t, loaded, req) {
      var target, name := TargetParent(loaded, req), TargetName(loaded, req);
      assert IndexedAt(t, req.id);
      PathShape(t, req.id);
      if target.Some? {
        assert IndexedAt(t, target.value);
        PathShape(t, target.value);
        SlashPrefix(t[target.value].path, name, loaded.path);
        TargetIsNode(t, loaded, req);
      } else {
        SlashPrefix("", name, loaded.path);
      }
      assert false;
    }
  }

  /** A target that shares the node's path would be the node. */
  lemma TargetIsNode(t: Table, loaded: Node, req: Request)
    requires InOrder(t, loaded, req) && Refusal(t, loaded, req).None? && TargetParent(loaded, req).Some?
    ensures t[TargetParent(loaded, req).value].path != loaded.path
  {
  }

  lemma UniqueAfterMoveIff(t: Table, loaded: Node, req: Request)
    requires InOrder(t, loaded, req) && Refusal(t, loaded, req).None?
    ensures UniquePaths(MovedRows(t, loaded, req))
       <==> IsFree(t, loaded.workspace, NewPath(t, loaded, req), req.id) && KeepsApart(t, loaded, req)
  {
    var r, newPath := MovedRows(t, loaded, req), NewPath(t, loaded, req);
    if IsFree(t, loaded.workspace, newPath, req.id) && KeepsApart(t, loaded, req) {
      forall d, e | d in r && e in r && d != e && r[d].workspace == r[e].workspace ensures r[d].path != r[e].path {
        if d != req.id {
          PairKeepsWorkspace(t, loaded, req, d, e);
          PairStaysApart(t, loaded, req, d, e);
        } else {
          PairKeepsWorkspace(t, loaded, req, e, d);
          PairStaysApart(t, loaded, req, e, d);
        }
      }
    }
    if UniquePaths(r) {
      forall d | d in t && d != req.id && t[d].workspace == loaded.workspace ensures t[d].path != newPath {
        OtherRow(t, loaded, req, d);
        if Reached(t, loaded, d) {
          ReachedIsNotNewPath(t, loaded, req, d);
        } else {
          assert r[d].path == t[d].path && r[req.id].path == newPath;
        }
      }
      forall d, e |
        d in t && e in t && d != e && Reached(t, loaded, d) && Reached(t, loaded, e) && Updates(t, loaded, req)
        ensures Replaced(t, loaded, req, d) != Replaced(t, loaded, req, e)
      {
        PairKeepsWorkspace(t, loaded, req, d, e);
        ReachedIsReplaced(t, loaded, req, d);
        ReachedIsReplaced(t, loaded, req, e);
      }
    }
  }

  lemma PairKeepsWorkspace(t: Table, loaded: Node, req: Request, d: int, e: int)
    requires Admissible(t, loaded, req) && d in t && e in t
    ensures MovedRows(t, loaded, req)[d].workspace == t[d].workspace
    ensures MovedRows(t, loaded, req)[e].workspace == t[e].workspace
  {
    if d != req.id {
      OtherRow(t, loaded, req, d);
    }
    if e != req.id {
      OtherRow(t, loaded, req, e);
    }
  }

  /** A move to a target of the same workspace that is neither the node nor below it succeeds
      exactly when nothing faults, the new path is free, and the update keeps the rows below
      apart. */
  lemma MoveSucceedsIff(t: Table, loaded: Node, req: Request, fault: bool)
    requires InOrder(t, loaded, req)
    requires var target := TargetParent(loaded, req);
             target.Some? ==> t[target.value].workspace == t[req.id].workspace && target.value != req.id
                              && !Below(t, req.id, target.value)
    ensures Move(t, loaded, req, fault).Ok?
       <==> !fault && IsFree(t, t[req.id].workspace, NewPath(t, loaded, req), req.id) && KeepsApart(t, loaded, req)
    ensures Move(t, loaded, req, fault).Err? ==> Move(t, loaded, req, fault) == Err(DatabaseError)
  {
    RefusalMeaning(t, loaded, req);
    UniqueAfterMoveIff(t, loaded, req);
  }

  /** Rows below are kept apart whenever none of them repeats the node's path. */
  lemma NoRepeatKeepsApart(t: Table, loaded: Node, req: Request)
    requires InOrder(t, loaded, req) && NoRepeat(t, loaded, req.id)
    ensures KeepsApart(t, loaded, req)
  {
    forall d, e |
      d in t && e in t && d != e && Reached(t, loaded, d) && Reached(t, loaded, e) && Updates(t, loaded, req)
      ensures Replaced(t, loaded, req, d) != Replaced(t, loaded, req, e)
    {
      ReachedIsBelow(t, loaded, req, d);
      ReachedIsBelow(t, loaded, req, e);
      ReachedIsReplaced(t, loaded, req, d);
      ReachedIsReplaced(t, loaded, req, e);
      FollowsIffNoRepeat(t, loaded, req, d);
      FollowsIffNoRepeat(t, loaded, req, e);
      RestOfChild(t, req.id, d);
      RestOfChild(t, req.id, e);
      SameRest(NewPath(t, loaded, req) + "/", Rest(t, req.id, d), Rest(t, req.id, e));
    }
  }

  lemma SameRest(front: string, a: string, b: string)
    ensures front + a == front + b ==> a == b
  {
    assert (front + a)[|front|..] == a && (front + b)[|front|..] == b;
  }

  /** So then: exactly when nothing faults and the new path is free. */
  lemma PlainMoveSucceedsIff(t: Table, loaded: Node, req: Request, fault: bool)
    requires InOrder(t, loaded, req) && NoRepeat(t, loaded, req.id)
    requires var target := TargetParent(loaded, req);
             target.Some? ==> t[target.value].workspace == t[req.id].workspace && target.value != req.id
                              && !Below(t, req.id, target.value)
    ensures Move(t, loaded, req, fault).Ok?
       <==> !fault && IsFree(t, t[req.id].workspace, NewPath(t, loaded, req), req.id)
  {
    NoRepeatKeepsApart(t, loaded, req);
    MoveSucceedsIff(t, loaded, req, fault);
  }

  /** What a success changes: the node takes the requested name and parent, or keeps its own
      where none was requested, and "to the root" wins over a parent; every other row keeps
      everything but, perhaps, its path. */
  lemma SuccessChangesOnlySo(t: Table, loaded: Node, req: Request, fault: bool)
    requires Admissible(t, loaded, req) && Move(t, loaded, req, fault).Ok?
    ensures var r := Move(t, loaded, req, fault).value;
            && r.Keys == t.Keys
            && r[req.id].name == (match req.newName case None => loaded.name case Some(name) => name)
            && (req.toRoot ==> r[req.id].parent == None)
            && (!req.toRoot && req.newParent.Some? ==> r[req.id].parent == req.newParent)
            && (!req.toRoot && req.newParent.None? ==> r[req.id].parent == loaded.parent)
            && r[req.id].workspace == t[req.id].workspace && r[req.id].isFolder == t[req.id].isFolder
            && forall d :: d in t && d != req.id ==> r[d] == t[d].(path := r[d].path)
  {
    forall d | d in t && d != req.id
      ensures MovedRows(t, loaded, req)[d] == t[d].(path := MovedRows(t, loaded, req)[d].path)
    {
      OtherRow(t, loaded, req, d);
    }
  }

  /** A new node is refused for a folder of another workspace, and otherwise added under its
      spelled path unless that is taken; nothing else changes. */
  lemma CreateMeaning(t: Table, id: int, workspace: int, parent: Option<int>, name: string, isFolder: bool, fault: bool)
    requires Indexed(t) && UniquePaths(t) && id !in t && (parent.Some? ==> parent.value in t)
    ensures var r := Create(t, id, workspace, parent, name, isFolder, fault);
            var path := (if parent.Some? then Spelled(t, parent.value) else "") + "/" + name;
            && (r == Err(OtherWorkspace) <==> parent.Some? && t[parent.value].workspace != workspace)
            && (r == Err(DatabaseError) <==> r != Err(OtherWorkspace) && (fault || !IsFree(t, workspace, path, id)))
            && (r.Ok? ==> r.value == t[id := Node(workspace, parent, name, path, isFolder)])
            && (r.Err? ==> r == Err(OtherWorkspace) || r == Err(DatabaseError))
  {
    if parent.Some? {
      StoredIsSpelled(t, parent.value);
      assert IndexedAt(t, parent.value);
      PathShape(t, parent.value);
    }
    if !(parent.Some? && t[parent.value].workspace != workspace) {
      UniqueWithNewRowIff(t, id, Node(workspace, parent, name, BuildPath(t, parent, name), isFolder));
    }
  }

  lemma UniqueWithNewRowIff(t: Table, id: int, row: Node)
    requires UniquePaths(t) && id !in t
    ensures UniquePaths(t[id := row]) <==> IsFree(t, row.workspace, row.path, id)
  {
    var u := t[id := row];
    if UniquePaths(u) {
      forall d | d in t && t[d].workspace == row.workspace ensures t[d].path != row.path {
        assert u[d] == t[d] && u[id] == row;
      }
    }
  }
}
