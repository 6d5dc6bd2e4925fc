/** Moves by an object whose path is no longer its row's: `bulk_move` loads all its nodes
    first, and a move of one rewrites the rows of others. */
module StaleMoves {
  import opened Options
  import opened Paths
  import opened PathTree

  ghost predicate Stale(t: Table, loaded: Node, req: Request) {
    Indexed(t) && Admissible(t, loaded, req) && loaded.path != t[req.id].path
  }

  ghost predicate HasChildren(t: Table, id: int) {
    exists d :: d in t && t[d].parent == Some(id)
  }

  /** The update finds a row other than the moved one. */
  ghost predicate FindsOthers(t: Table, loaded: Node, id: int) {
    exists d :: d in t && d != id && Reached(t, loaded, d)
  }

  /** What is left to keep a stale move harmless: the children's paths fit the new path as
      they are, and the update changes no row. */
  ghost predicate ChangesNothingElse(t: Table, loaded: Node, req: Request)
    requires Admissible(t, loaded, req)
  {
    && (HasChildren(t, req.id) ==> RStripSlash(NewPath(t, loaded, req)) == t[req.id].path)
    && (Updates(t, loaded, req) ==> !FindsOthers(t, loaded, req.id))
  }

  lemma HarmlessAgrees(t: Table, loaded: Node, req: Request)
    requires Stale(t, loaded, req) && Refusal(t, loaded, req).None? && ChangesNothingElse(t, loaded, req)
    ensures Agrees(MovedRows(t, loaded, req))
  {
    MovedRowAgrees(t, loaded, req);
    forall d | d in t && d != req.id ensures AgreesAt(MovedRows(t, loaded, req), d) {
      assert IndexedAt(t, d);
      OtherRow(t, loaded, req, d);
      if t[d].parent.Some? {
        var p := t[d].parent.value;
        if p == req.id {
          assert IndexedAt(t, p);
          PathShape(t, p);
        } else {
          OtherRow(t, loaded, req, p);
        }
      }
    }
  }

  /** With slash-free names a child the update finds is torn from its parent's path. */
  lemma FoundChildIsTorn(childName: string, path: string, oldPath: string, newPath: string)
    requires '/' !in childName && StartsWith(path + "/" + childName, oldPath + "/") && path != oldPath
    ensures Replace(path + "/" + childName, oldPath + "/", newPath + "/") != RStripSlash(newPath) + "/" + childName
  {
    var from, to, whole := oldPath + "/", newPath + "/", path + "/";
    assert whole + childName == path + "/" + childName;
    EndsBefore(whole, childName, from);
    assert StartsWith(whole, from) by {
      assert (whole + childName)[..|from|] == whole[..|from|];
    }
    assert from[..|oldPath|] == oldPath && whole[..|path|] == path;
    var rest := whole[|from|..];
    assert rest != "";
    ReplaceSplit(whole, childName, from, to);
    assert Replace(whole, from, to) == to + Replace(rest, from, to);
    ReplaceKeepsSomething(rest, from, to);
  }

  lemma ReplaceKeepsSomething(s: string, from: string, to: string)
    requires s != "" && from != "" && to != ""
    ensures Replace(s, from, to) != ""
  {
  }

  lemma ChildForcesFit(t: Table, loaded: Node, req: Request, d: int)
    requires Stale(t, loaded, req) && SlashFree(t) && Agrees(MovedRows(t, loaded, req))
    requires d in t && t[d].parent == Some(req.id)
    ensures RStripSlash(NewPath(t, loaded, req)) == t[req.id].path
  {
    var newPath, path := NewPath(t, loaded, req), t[req.id].path;
    assert IndexedAt(t, d) && IndexedAt(t, req.id);
    PathShape(t, req.id);
    PathShape(t, d);
    assert d != req.id;
    assert AgreesAt(MovedRows(t, loaded, req), d);
    OtherRow(t, loaded, req, d);
    if Updates(t, loaded, req) && Reached(t, loaded, d) {
      FoundChildIsTorn(t[d].name, path, loaded.path, newPath);
    } else {
      SameParentPath(RStripSlash(newPath), path, t[d].name);
    }
  }

  lemma SameParentPath(a: string, b: string, name: string)
    requires a + "/" + name == b + "/" + name
    ensures a == b
  {
    var whole := a + "/" + name;
    assert whole[..|whole| - |name| - 1] == a;
    assert (b + "/" + name)[..|whole| - |name| - 1] == b;
  }

  /** Climb from a found row to the topmost one: its path changes, its parent's does not. */
  lemma {:induction false} NothingElseFound(t: Table, loaded: Node, req: Request, d: int)
    requires Stale(t, loaded, req) && Agrees(MovedRows(t, loaded, req))
    requires HasChildren(t, req.id) ==> RStripSlash(NewPath(t, loaded, req)) == t[req.id].path
    requires d in t && d != req.id && Updates(t, loaded, req)
    ensures !Reached(t, loaded, d)
    decreases |t[d].path|
  {
    if Reached(t, loaded, d) {
      assert IndexedAt(t, d) && AgreesAt(MovedRows(t, loaded, req), d);
      PathShape(t, d);
      ReachedRowChanges(t, loaded, req, d);
      OtherRow(t, loaded, req, d);
      if t[d].parent.Some? {
        var p := t[d].parent.value;
        assert IndexedAt(t, p);
        PathShape(t, p);
        if p != req.id {
          NothingElseFound(t, loaded, req, p);
          OtherRow(t, loaded, req, p);
        }
      }
      assert false;
    }
  }

  /** A successful move by a stale object keeps the index exactly when nothing needed to
      follow it and nothing followed it. */
  lemma StaleMoveKeepsIndexIff(t: Table, loaded: Node, req: Request, fault: bool)
    requires Stale(t, loaded, req) && SlashFree(t) && Move(t, loaded, req, fault).Ok?
    ensures Agrees(Move(t, loaded, req, fault).value) <==> ChangesNothingElse(t, loaded, req)
  {
    if ChangesNothingElse(t, loaded, req) {
      HarmlessAgrees(t, loaded, req);
    } else if Agrees(MovedRows(t, loaded, req)) {
      if HasChildren(t, req.id) {
        var d :| d in t && t[d].parent == Some(req.id);
        ChildForcesFit(t, loaded, req, d);
      }
      if Updates(t, loaded, req) && FindsOthers(t, loaded, req.id) {
        var d :| d in t && d != req.id && Reached(t, loaded, d);
        NothingElseFound(t, loaded, req, d);
      }
      assert false;
    }
  }

  // ---------- Any move ----------

  /** The condition under which a move keeps the index, for an object in step with its
      row or not. */
  ghost predicate Harmless(t: Table, loaded: Node, req: Request)
    requires Indexed(t) && Admissible(t, loaded, req)
  {
    if loaded.path == t[req.id].path then !Updates(t, loaded, req) || FindsOnlyItsOwn(t, loaded, req)
    else ChangesNothingElse(t, loaded, req)
  }

  lemma HarmlessMoveKeepsIndex(t: Table, loaded: Node, req: Request, fault: bool)
    requires Indexed(t) && Admissible(t, loaded, req) && TidyName(TargetName(loaded, req))
    requires Move(t, loaded, req, fault).Ok? && Harmless(t, loaded, req)
    ensures Indexed(Move(t, loaded, req, fault).value)
  {
    if loaded.path == t[req.id].path {
      MoveKeepsIndexIff(t, loaded, req, fault);
    } else {
      HarmlessAgrees(t, loaded, req);
    }
    TidyMoveStaysTidy(t, loaded, req);
  }

  lemma MoveKeepsIndexOnlyIfHarmless(t: Table, loaded: Node, req: Request, fault: bool)
    requires Indexed(t) && Admissible(t, loaded, req) && (loaded.path == t[req.id].path || SlashFree(t))
    requires Move(t, loaded, req, fault).Ok? && Indexed(Move(t, loaded, req, fault).value)
    ensures Harmless(t, loaded, req)
  {
    TidyMoveStaysTidy(t, loaded, req);
    if loaded.path == t[req.id].path {
      MoveKeepsIndexIff(t, loaded, req, fault);
    } else {
      StaleMoveKeepsIndexIff(t, loaded, req, fault);
    }
  }

  // ---------- Moving a folder and something below it in one go ----------

  function Into(id: int, target: Option<int>): Request {
    Request(id, None, target, target.None?)
  }

  lemma MovedAlong(t: Table, a: int, target: Option<int>, d: int)
    requires a in t && Ready(t, t[a], Into(a, target)) && FindsOnlyItsOwn(t, t[a], Into(a, target))
    requires Updates(t, t[a], Into(a, target)) && d in t && Below(t, a, d)
    ensures var u := MovedRows(t, t[a], Into(a, target));
            && u[d] == t[d].(path := u[d].path) && u[d].path != t[d].path
            && |u[d].path| > |NewPath(t, t[a], Into(a, target))| + |t[d].name|
  {
    var req := Into(a, target);
    NotBelowItself(t, a);
    OtherRow(t, t[a], req, d);
    FollowsIffNoRepeat(t, t[a], req, d);
    ReachedRowChanges(t, t[a], req, d);
    RestOfChild(t, a, d);
  }

  lemma TargetStays(t: Table, a: int, target: int)
    requires a in t && Admissible(t, t[a], Into(a, Some(target))) && Refusal(t, t[a], Into(a, Some(target))).None?
    ensures MovedRows(t, t[a], Into(a, Some(target)))[target] == t[target]
  {
    OtherRow(t, t[a], Into(a, Some(target)), target);
  }

  lemma MoveStaysIndexed(t: Table, a: int, target: Option<int>)
    requires a in t && Ready(t, t[a], Into(a, target)) && FindsOnlyItsOwn(t, t[a], Into(a, target)) && SlashFree(t)
    requires Refusal(t, t[a], Into(a, target)).None? && Updates(t, t[a], Into(a, target))
    ensures var u := MovedRows(t, t[a], Into(a, target)); Indexed(u) && SlashFree(u)
  {
    var req := Into(a, target);
    assert IndexedAt(t, a);
    OwnUpdateAgrees(t, t[a], req);
    TidyMoveStaysTidy(t, t[a], req);
    forall d | d in t && d != a ensures MovedRows(t, t[a], req)[d].name == t[d].name {
      OtherRow(t, t[a], req, d);
    }
  }

  /** The second move of `bulk_move`, by an object loaded before the first one: `b` lay below
      the folder `a` that has just been moved to the same target.  If `b` has a child, its
      children are left behind under the path `b` no longer has. */
  lemma BulkMoveTearsNested(t: Table, a: int, b: int, child: int, target: Option<int>, fault: bool)
    requires a in t && Ready(t, t[a], Into(a, target)) && SlashFree(t)
    requires FindsOnlyItsOwn(t, t[a], Into(a, target)) && Updates(t, t[a], Into(a, target))
    requires Refusal(t, t[a], Into(a, target)).None?
    requires b in t && Below(t, a, b) && child in t && t[child].parent == Some(b)
    requires var u := MovedRows(t, t[a], Into(a, target));
             HasTarget(u, t[b], Into(b, target)) && Move(u, t[b], Into(b, target), fault).Ok?
    ensures var u := MovedRows(t, t[a], Into(a, target)); !Agrees(Move(u, t[b], Into(b, target), fault).value)
  {
    var u := MovedRows(t, t[a], Into(a, target));
    MoveStaysIndexed(t, a, target);
    MovedAlong(t, a, target, b);
    assert IndexedAt(t, child) && Below(t, a, child);
    MovedAlong(t, a, target, child);
    if target.Some? {
      TargetStays(t, a, target.value);
    }
    var newPath := NewPath(u, t[b], Into(b, target));
    assert |newPath| <= |NewPath(t, t[a], Into(a, target))| + |t[b].name|;
    assert RStripSlash(newPath) != u[b].path;
    assert HasChildren(u, b);
    StaleMoveKeepsIndexIff(u, t[b], Into(b, target), fault);
  }
}
