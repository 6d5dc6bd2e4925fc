/** The file tree with its materialised paths (`Node.build_path`, `save`, `move`). */
module PathTree {
  import opened Options
  import opened Paths

  datatype Node = Node(workspace: int, parent: Option<int>, name: string, path: string, isFolder: bool)

  type Table = map<int, Node>

  datatype MoveError = OtherWorkspace | OwnParent | IntoDescendant | DatabaseError

  /** A move request: `None` keeps the name or the parent, as the defaults do. */
  datatype Request = Request(id: int, newName: Option<string>, newParent: Option<int>, toRoot: bool)

  // ---------- What the code does ----------

  function BuildPath(t: Table, parent: Option<int>, name: string): string
    requires parent.Some? ==> parent.value in t
  {
    (if parent.Some? then RStripSlash(t[parent.value].path) else "") + "/" + name
  }

  function TargetName(loaded: Node, req: Request): string {
    if req.newName.Some? then req.newName.value else loaded.name
  }

  function TargetParent(loaded: Node, req: Request): Option<int> {
    if req.toRoot then None else if req.newParent.Some? then req.newParent else loaded.parent
  }

  /** The target folder, if any, is a row. */
  predicate HasTarget(t: Table, loaded: Node, req: Request) {
    TargetParent(loaded, req).Some? ==> TargetParent(loaded, req).value in t
  }

  function NewPath(t: Table, loaded: Node, req: Request): string
    requires HasTarget(t, loaded, req)
  {
    BuildPath(t, TargetParent(loaded, req), TargetName(loaded, req))
  }

  /** The bulk update of the rows below the old path. */
  function Rewritten(t: Table, workspace: int, oldPath: string, newPath: string): Table {
    map id | id in t ::
      if t[id].workspace == workspace && StartsWith(t[id].path, oldPath + "/")
      then t[id].(path := Replace(t[id].path, oldPath + "/", newPath + "/"))
      else t[id]
  }

  predicate UniquePaths(t: Table) {
    forall a, b :: a in t && b in t && a != b && t[a].workspace == t[b].workspace ==> t[a].path != t[b].path
  }

  /** The rows after the bulk update, if any, and the save of the moved node itself. */
  function Stored(t: Table, id: int, oldPath: string, moved: Node): Table {
    var update := moved.isFolder && oldPath != moved.path;
    var rows := if update then Rewritten(t, moved.workspace, oldPath, moved.path) else t;
    rows[id := moved]
  }

  /** The rows the transaction of a move would leave.  `loaded` is the node as the
      moving object holds it, which need not be what its row says by now. */
  function MovedRows(t: Table, loaded: Node, req: Request): Table
    requires HasTarget(t, loaded, req)
  {
    Stored(t, req.id, loaded.path,
           loaded.(name := TargetName(loaded, req), parent := TargetParent(loaded, req),
                   path := NewPath(t, loaded, req)))
  }

  function Refusal(t: Table, loaded: Node, req: Request): Option<MoveError>
    requires HasTarget(t, loaded, req)
  {
    var p := TargetParent(loaded, req);
    if p.Some? && t[p.value].workspace != loaded.workspace then Some(OtherWorkspace)
    else if p.Some? && p.value == req.id then Some(OwnParent)
    else if p.Some? && StartsWith(t[p.value].path, loaded.path + "/") then Some(IntoDescendant)
    else None
  }

  /** `fault`: the database raises for a reason of its own. */
  function Move(t: Table, loaded: Node, req: Request, fault: bool): Result<Table, MoveError>
    requires HasTarget(t, loaded, req)
  {
    if Refusal(t, loaded, req).Some? then Err(Refusal(t, loaded, req).value)
    else if fault || !UniquePaths(MovedRows(t, loaded, req)) then Err(DatabaseError)
    else Ok(MovedRows(t, loaded, req))
  }

  /** `Node.objects.create`: `save` computes the path. */
  function Create(t: Table, id: int, workspace: int, parent: Option<int>, name: string, isFolder: bool, fault: bool)
    : Result<Table, MoveError>
    requires id !in t && (parent.Some? ==> parent.value in t)
  {
    if parent.Some? && t[parent.value].workspace != workspace then Err(OtherWorkspace)
    else
      var rows := t[id := Node(workspace, parent, name, BuildPath(t, parent, name), isFolder)];
      if fault || !UniquePaths(rows) then Err(DatabaseError) else Ok(rows)
  }

  // ---------- The index agrees with the links ----------

  /** The stored path is what `build_path` gives for the stored parent and name, and the
      parent is a folder of the same workspace. */
  ghost predicate AgreesAt(t: Table, id: int)
    requires id in t
  {
    && (t[id].parent.Some? ==> t[id].parent.value in t)
    && (t[id].parent.Some? ==> t[t[id].parent.value].workspace == t[id].workspace && t[t[id].parent.value].isFolder)
    && t[id].path == BuildPath(t, t[id].parent, t[id].name)
  }

  ghost predicate Agrees(t: Table) {
    forall id :: id in t ==> AgreesAt(t, id)
  }

  ghost predicate IndexedAt(t: Table, id: int)
    requires id in t
  {
    TidyName(t[id].name) && AgreesAt(t, id)
  }

  /** Every stored path agrees with the links, and no name is empty or ends in a slash.
      Slashes elsewhere in a name are allowed, as the views allow them. */
  ghost predicate Indexed(t: Table) {
    forall id :: id in t ==> IndexedAt(t, id)
  }

  ghost predicate SlashFree(t: Table) {
    forall id :: id in t ==> '/' !in t[id].name
  }

  lemma PathShape(t: Table, id: int)
    requires Indexed(t) && id in t
    ensures t[id].path != "" && RStripSlash(t[id].path) == t[id].path
    ensures var p := t[id].parent;
            p.Some? ==> t[id].path == t[p.value].path + "/" + t[id].name && |t[p.value].path| < |t[id].path|
  {
    assert IndexedAt(t, id);
    var n := t[id];
    assert n.path[|n.path| - 1] == n.name[|n.name| - 1] != '/';
    StripKeeps(n.path);
    if n.parent.Some? {
      var q := t[n.parent.value];
      assert IndexedAt(t, n.parent.value);
      assert q.path[|q.path| - 1] == q.name[|q.name| - 1] != '/';
      StripKeeps(q.path);
    }
  }

  /** The path spelled by the parent chain alone. */
  ghost function Spelled(t: Table, id: int): string
    requires Indexed(t) && id in t
    decreases |t[id].path|
  {
    assert IndexedAt(t, id);
    PathShape(t, id);
    (if t[id].parent.Some? then Spelled(t, t[id].parent.value) else "") + "/" + t[id].name
  }

  lemma {:induction false} StoredIsSpelled(t: Table, id: int)
    requires Indexed(t) && id in t
    ensures t[id].path == Spelled(t, id)
    decreases |t[id].path|
  {
    assert IndexedAt(t, id);
    PathShape(t, id);
    if t[id].parent.Some? {
      StoredIsSpelled(t, t[id].parent.value);
    }
  }

  /** `d` lies strictly below `a` along the parent links. */
  ghost predicate Below(t: Table, a: int, d: int)
    requires Indexed(t) && d in t
    decreases |t[d].path|
  {
    assert IndexedAt(t, d);
    PathShape(t, d);
    t[d].parent.Some? && (t[d].parent.value == a || Below(t, a, t[d].parent.value))
  }

  /** The part of the path of `d` after the path of `a` and a slash. */
  function Rest(t: Table, a: int, d: int): string
    requires a in t && d in t
  {
    if |t[a].path| < |t[d].path| then t[d].path[|t[a].path| + 1..] else ""
  }

  lemma {:induction false} BelowHasPrefix(t: Table, a: int, d: int)
    requires Indexed(t) && a in t && d in t && Below(t, a, d)
    ensures StartsWith(t[d].path, t[a].path + "/") && t[d].workspace == t[a].workspace
    ensures t[a].isFolder
    decreases |t[d].path|
  {
    assert IndexedAt(t, d);
    PathShape(t, d);
    var p := t[d].parent.value;
    if p == a {
      assert t[d].path[..|t[a].path| + 1] == t[a].path + "/";
    } else {
      BelowHasPrefix(t, a, p);
      ChildRest(t[p].path, t[d].name, t[a].path);
    }
  }

  lemma BelowStep(t: Table, a: int, d: int)
    requires Indexed(t) && d in t && Below(t, a, d)
    ensures t[d].parent.Some? && t[d].parent.value in t
    ensures t[d].path == t[t[d].parent.value].path + "/" + t[d].name
    ensures t[d].parent.value == a || Below(t, a, t[d].parent.value)
  {
    assert IndexedAt(t, d);
    PathShape(t, d);
  }

  /** The rest of a path one level further down. */
  lemma RestOfChild(t: Table, a: int, d: int)
    requires Indexed(t) && a in t && d in t && Below(t, a, d)
    ensures t[d].path == (t[a].path + "/") + Rest(t, a, d)
    ensures t[d].parent.Some? && t[d].parent.value in t
    ensures var p := t[d].parent.value;
            if p == a then Rest(t, a, d) == t[d].name
            else Below(t, a, p) && Rest(t, a, d) == Rest(t, a, p) + "/" + t[d].name
  {
    BelowStep(t, a, d);
    var p := t[d].parent.value;
    if p == a {
      RestOfDirectChild(t, a, d);
    } else {
      BelowHasPrefix(t, a, p);
      RestOfDeeperChild(t, a, p, d);
    }
  }

  lemma RestOfDirectChild(t: Table, a: int, d: int)
    requires a in t && d in t && t[d].path == t[a].path + "/" + t[d].name
    ensures t[d].path == (t[a].path + "/") + Rest(t, a, d) && Rest(t, a, d) == t[d].name
  {
  }

  lemma RestOfDeeperChild(t: Table, a: int, p: int, d: int)
    requires a in t && p in t && d in t && t[d].path == t[p].path + "/" + t[d].name
    requires StartsWith(t[p].path, t[a].path + "/")
    ensures t[d].path == (t[a].path + "/") + Rest(t, a, d) && Rest(t, a, d) == Rest(t, a, p) + "/" + t[d].name
  {
    ChildRest(t[p].path, t[d].name, t[a].path);
  }

  lemma {:induction false} PrefixIsBelow(t: Table, a: int, d: int)
    requires Indexed(t) && SlashFree(t) && UniquePaths(t) && a in t && d in t && t[a].workspace == t[d].workspace
    requires StartsWith(t[d].path, t[a].path + "/")
    ensures Below(t, a, d)
    decreases |t[d].path|
  {
    assert IndexedAt(t, d);
    PathShape(t, d);
    PathShape(t, a);
    if t[d].parent.None? {
      SlashPrefix("", t[d].name, t[a].path);
    } else {
      var p := t[d].parent.value;
      SlashPrefix(t[p].path, t[d].name, t[a].path);
      if |t[a].path| < |t[p].path| {
        PrefixIsBelow(t, a, p);
      }
    }
  }

  /** Without slashes in names, the cycle check of `move` tests exactly "the target lies
      below the node". */
  lemma PrefixTestIsAncestry(t: Table, a: int, d: int)
    requires Indexed(t) && SlashFree(t) && UniquePaths(t) && a in t && d in t && t[a].workspace == t[d].workspace
    ensures StartsWith(t[d].path, t[a].path + "/") <==> Below(t, a, d)
  {
    if Below(t, a, d) {
      BelowHasPrefix(t, a, d);
    }
    if StartsWith(t[d].path, t[a].path + "/") {
      PrefixIsBelow(t, a, d);
    }
  }

  // ---------- No cycles ----------

  /** The node reached by following `steps` parent links. */
  function Ancestor(t: Table, id: int, steps: nat): Option<int> {
    if steps == 0 then Some(id)
    else match Ancestor(t, id, steps - 1)
      case None => None
      case Some(a) => if a in t then t[a].parent else None
  }

  ghost predicate OnCycle(t: Table, id: int) {
    exists steps: nat :: steps > 0 && Ancestor(t, id, steps) == Some(id)
  }

  lemma {:induction false} AncestorsAreShorter(t: Table, id: int, steps: nat)
    requires Indexed(t) && id in t && Ancestor(t, id, steps).Some?
    ensures Ancestor(t, id, steps).value in t
    ensures |t[Ancestor(t, id, steps).value].path| + steps <= |t[id].path|
  {
    if steps > 0 {
      AncestorsAreShorter(t, id, steps - 1);
      var a := Ancestor(t, id, steps - 1).value;
      assert IndexedAt(t, a);
      PathShape(t, a);
      assert t[a].parent == Ancestor(t, id, steps);
    }
  }

  lemma IndexedHasNoCycle(t: Table, id: int)
    requires Indexed(t) && id in t
    ensures !OnCycle(t, id)
  {
    forall steps: nat | steps > 0 ensures Ancestor(t, id, steps) != Some(id) {
      if Ancestor(t, id, steps).Some? {
        AncestorsAreShorter(t, id, steps);
      }
    }
  }

  // ---------- Moves ----------

  /** What the callers see to: the object is of the row's workspace and type, and the
      target is a folder. */
  ghost predicate Admissible(t: Table, loaded: Node, req: Request) {
    && req.id in t && loaded.workspace == t[req.id].workspace && loaded.isFolder == t[req.id].isFolder
    && HasTarget(t, loaded, req)
    && (TargetParent(loaded, req).Some? ==> t[TargetParent(loaded, req).value].isFolder)
  }

  /** The object's path is still the row's. */
  ghost predicate Ready(t: Table, loaded: Node, req: Request) {
    Indexed(t) && Admissible(t, loaded, req) && loaded.path == t[req.id].path
  }

  /** The bulk update takes place, and which rows it finds. */
  predicate Updates(t: Table, loaded: Node, req: Request)
    requires HasTarget(t, loaded, req)
  {
    loaded.isFolder && loaded.path != NewPath(t, loaded, req)
  }

  predicate Reached(t: Table, loaded: Node, d: int)
    requires d in t
  {
    t[d].workspace == loaded.workspace && StartsWith(t[d].path, loaded.path + "/")
  }

  /** What a caller can look up before the call: every row the update finds lies below the
      moved folder and does not repeat the folder's own path; and if there is one, the new
      name does not end in a slash. */
  ghost predicate FindsOnlyItsOwn(t: Table, loaded: Node, req: Request)
    requires Ready(t, loaded, req)
  {
    forall d :: d in t && Reached(t, loaded, d) ==>
                  && Below(t, req.id, d) && !Occurs(Rest(t, req.id, d), loaded.path + "/")
                  && TidyName(TargetName(loaded, req))
  }

  lemma NotBelowItself(t: Table, a: int)
    requires Indexed(t) && a in t
    ensures !Below(t, a, a)
  {
    if Below(t, a, a) {
      BelowHasPrefix(t, a, a);
    }
  }

  lemma OtherRow(t: Table, loaded: Node, req: Request, d: int)
    requires Admissible(t, loaded, req) && d in t && d != req.id
    ensures var r := MovedRows(t, loaded, req)[d];
            r == t[d].(path := if Updates(t, loaded, req) && Reached(t, loaded, d)
                               then Replace(t[d].path, loaded.path + "/", NewPath(t, loaded, req) + "/")
                               else t[d].path)
  {
  }

  /** A row the update finds never keeps its path. */
  lemma ReachedRowChanges(t: Table, loaded: Node, req: Request, d: int)
    requires Admissible(t, loaded, req) && d in t && d != req.id
    requires Updates(t, loaded, req) && Reached(t, loaded, d)
    ensures MovedRows(t, loaded, req)[d].path != t[d].path
  {
    var from, to := loaded.path + "/", NewPath(t, loaded, req) + "/";
    OtherRow(t, loaded, req, d);
    assert from[..|from| - 1] == loaded.path && to[..|to| - 1] == NewPath(t, loaded, req);
    ReplacePresent(t[d].path, from, to);
  }

  lemma NewPathEnd(t: Table, loaded: Node, req: Request)
    requires Admissible(t, loaded, req)
    ensures var newPath := NewPath(t, loaded, req);
            && newPath != ""
            && (newPath[|newPath| - 1] != '/' <==> TidyName(TargetName(loaded, req)))
            && (TidyName(TargetName(loaded, req)) ==> RStripSlash(newPath) == newPath)
  {
    var name, newPath := TargetName(loaded, req), NewPath(t, loaded, req);
    if name != "" {
      assert newPath[|newPath| - 1] == name[|name| - 1];
    }
    if TidyName(name) {
      StripKeeps(newPath);
    }
  }

  // ----- The update finds nothing but its own: the index holds again. -----

  /** The moved row itself always agrees: the check on the target keeps the update away
      from the target folder. */
  lemma MovedRowAgrees(t: Table, loaded: Node, req: Request)
    requires Admissible(t, loaded, req) && Refusal(t, loaded, req).None?
    ensures AgreesAt(MovedRows(t, loaded, req), req.id)
  {
    if TargetParent(loaded, req).Some? {
      OtherRow(t, loaded, req, TargetParent(loaded, req).value);
    }
  }

  ghost predicate Follows(t: Table, loaded: Node, req: Request, d: int)
    requires Admissible(t, loaded, req) && d in t
  {
    MovedRows(t, loaded, req)[d].path == (NewPath(t, loaded, req) + "/") + Rest(t, req.id, d)
  }

  /** A row below follows exactly when the moved path does not occur in its rest. */
  lemma FollowsIffNoRepeat(t: Table, loaded: Node, req: Request, d: int)
    requires Ready(t, loaded, req) && Updates(t, loaded, req) && d in t && Below(t, req.id, d)
    ensures Reached(t, loaded, d)
    ensures Follows(t, loaded, req, d) <==> !Occurs(Rest(t, req.id, d), loaded.path + "/")
  {
    NotBelowItself(t, req.id);
    BelowHasPrefix(t, req.id, d);
    OtherRow(t, loaded, req, d);
    RestOfChild(t, req.id, d);
    var from, to := loaded.path + "/", NewPath(t, loaded, req) + "/";
    assert from[..|from| - 1] == loaded.path && to[..|to| - 1] == NewPath(t, loaded, req);
    ReplaceHead(Rest(t, req.id, d), from, to);
  }

  lemma FollowedPathIsTidy(t: Table, loaded: Node, req: Request, p: int)
    requires Ready(t, loaded, req) && p in t && Below(t, req.id, p) && Follows(t, loaded, req, p)
    ensures var path := MovedRows(t, loaded, req)[p].path; RStripSlash(path) == path
  {
    assert IndexedAt(t, p);
    RestOfChild(t, req.id, p);
    var name, path := t[p].name, MovedRows(t, loaded, req)[p].path;
    assert path[|path| - 1] == name[|name| - 1];
    StripKeeps(path);
  }

  lemma BelowRowAgrees(t: Table, loaded: Node, req: Request, d: int)
    requires Ready(t, loaded, req) && Updates(t, loaded, req) && FindsOnlyItsOwn(t, loaded, req)
    requires d in t && Below(t, req.id, d)
    ensures AgreesAt(MovedRows(t, loaded, req), d)
  {
    NotBelowItself(t, req.id);
    assert IndexedAt(t, d);
    OtherRow(t, loaded, req, d);
    FollowsIffNoRepeat(t, loaded, req, d);
    RestOfChild(t, req.id, d);
    var p := t[d].parent.value;
    if p == req.id {
      NewPathEnd(t, loaded, req);
    } else {
      OtherRow(t, loaded, req, p);
      FollowsIffNoRepeat(t, loaded, req, p);
      FollowedPathIsTidy(t, loaded, req, p);
      ConcatPath(NewPath(t, loaded, req) + "/", Rest(t, req.id, p), t[d].name);
    }
  }

  lemma OutsideRowAgrees(t: Table, loaded: Node, req: Request, d: int)
    requires Ready(t, loaded, req) && Updates(t, loaded, req) && FindsOnlyItsOwn(t, loaded, req)
    requires d in t && d != req.id && !Below(t, req.id, d)
    ensures AgreesAt(MovedRows(t, loaded, req), d)
  {
    assert IndexedAt(t, d);
    OtherRow(t, loaded, req, d);
    if t[d].parent.Some? {
      OtherRow(t, loaded, req, t[d].parent.value);
    }
  }

  lemma OwnUpdateAgrees(t: Table, loaded: Node, req: Request)
    requires Ready(t, loaded, req) && Refusal(t, loaded, req).None?
    requires Updates(t, loaded, req) && FindsOnlyItsOwn(t, loaded, req)
    ensures Agrees(MovedRows(t, loaded, req))
  {
    MovedRowAgrees(t, loaded, req);
    forall d | d in t && d != req.id ensures AgreesAt(MovedRows(t, loaded, req), d) {
      if Below(t, req.id, d) {
        BelowRowAgrees(t, loaded, req, d);
      } else {
        OutsideRowAgrees(t, loaded, req, d);
      }
    }
  }

  /** Without an update only the moved row changes; it is a file or keeps its path. */
  lemma NoUpdateAgrees(t: Table, loaded: Node, req: Request)
    requires Ready(t, loaded, req) && Refusal(t, loaded, req).None? && !Updates(t, loaded, req)
    ensures Agrees(MovedRows(t, loaded, req))
  {
    MovedRowAgrees(t, loaded, req);
    forall d | d in t && d != req.id ensures AgreesAt(MovedRows(t, loaded, req), d) {
      assert IndexedAt(t, d);
      OtherRow(t, loaded, req, d);
      if t[d].parent.Some? && t[d].parent.value != req.id {
        OtherRow(t, loaded, req, t[d].parent.value);
      }
    }
  }

  // ----- The index holds again: the update found nothing but its own. -----

  /** A row that is found without lying below cannot agree afterwards: climb its parents to
      the topmost one that is found. */
  lemma {:induction false} FoundIsBelow(t: Table, loaded: Node, req: Request, d: int)
    requires Ready(t, loaded, req) && Updates(t, loaded, req) && Agrees(MovedRows(t, loaded, req))
    requires d in t && Reached(t, loaded, d)
    ensures Below(t, req.id, d)
    decreases |t[d].path|
  {
    assert d != req.id;
    assert IndexedAt(t, d) && AgreesAt(MovedRows(t, loaded, req), d);
    PathShape(t, d);
    OtherRow(t, loaded, req, d);
    ReachedRowChanges(t, loaded, req, d);
    var parent := t[d].parent;
    if parent.Some? && parent.value != req.id {
      assert IndexedAt(t, parent.value);
      OtherRow(t, loaded, req, parent.value);
      if Reached(t, loaded, parent.value) {
        FoundIsBelow(t, loaded, req, parent.value);
      }
    }
  }

  /** A direct child fits under the new path only if that does not end in a slash. */
  lemma ChildForcesTidyName(t: Table, loaded: Node, req: Request, d: int)
    requires Ready(t, loaded, req) && Updates(t, loaded, req) && Agrees(MovedRows(t, loaded, req))
    requires d in t && t[d].parent == Some(req.id)
    ensures TidyName(TargetName(loaded, req))
  {
    var r, newPath, name := MovedRows(t, loaded, req), NewPath(t, loaded, req), t[d].name;
    var from, to, base := loaded.path + "/", newPath + "/", RStripSlash(newPath);
    assert AgreesAt(r, d);
    assert Below(t, req.id, d);
    NotBelowItself(t, req.id);
    OtherRow(t, loaded, req, d);
    RestOfChild(t, req.id, d);
    FollowsIffNoRepeat(t, loaded, req, d);
    assert from[..|from| - 1] == loaded.path && to[..|to| - 1] == newPath;
    ReplaceHead(name, from, to);
    assert to + Replace(name, from, to) == base + "/" + name;
    NewPathEnd(t, loaded, req);
    if !TidyName(TargetName(loaded, req)) {
      assert IndexedAt(t, req.id);
      PathShape(t, req.id);
      UntidyNeverFits(name, loaded.path, newPath);
      assert false;
    }
  }

  lemma UntidyNeverFits(name: string, path: string, newPath: string)
    requires path != "" && RStripSlash(path) == path && newPath != "" && newPath[|newPath| - 1] == '/'
    ensures (newPath + "/") + Replace(name, path + "/", newPath + "/") != RStripSlash(newPath) + "/" + name
  {
    var from, to, base := path + "/", newPath + "/", RStripSlash(newPath);
    var padding := to[|base| + 1..];
    assert |base| < |newPath|;
    assert to[..|base|] == base;
    StripLeavesSlashes(newPath);
    assert to[|base|] == '/';
    assert to == (base + "/") + padding;
    PaddingNeverFits(padding, name, from, to);
    var rest := Replace(name, from, to);
    assert (to + rest)[|base| + 1..] == padding + rest;
    assert (base + "/" + name)[|base| + 1..] == name;
  }

  lemma {:induction false} SomeChild(t: Table, a: int, d: int) returns (child: int)
    requires Indexed(t) && d in t && Below(t, a, d)
    ensures child in t && t[child].parent == Some(a)
    decreases |t[d].path|
  {
    BelowStep(t, a, d);
    PathShape(t, d);
    if t[d].parent.value == a {
      child := d;
    } else {
      child := SomeChild(t, a, t[d].parent.value);
    }
  }

  lemma {:induction false} AgreementForcesFollowing(t: Table, loaded: Node, req: Request, d: int)
    requires Ready(t, loaded, req) && Updates(t, loaded, req) && Agrees(MovedRows(t, loaded, req))
    requires TidyName(TargetName(loaded, req)) && d in t && Below(t, req.id, d)
    ensures Follows(t, loaded, req, d)
    decreases |t[d].path|
  {
    NotBelowItself(t, req.id);
    assert IndexedAt(t, d) && AgreesAt(MovedRows(t, loaded, req), d);
    PathShape(t, d);
    OtherRow(t, loaded, req, d);
    RestOfChild(t, req.id, d);
    var p := t[d].parent.value;
    if p == req.id {
      NewPathEnd(t, loaded, req);
    } else {
      AgreementForcesFollowing(t, loaded, req, p);
      FollowedPathIsTidy(t, loaded, req, p);
      ConcatPath(NewPath(t, loaded, req) + "/", Rest(t, req.id, p), t[d].name);
    }
  }

  lemma AgreementForcesOwn(t: Table, loaded: Node, req: Request)
    requires Ready(t, loaded, req) && Updates(t, loaded, req) && Agrees(MovedRows(t, loaded, req))
    ensures FindsOnlyItsOwn(t, loaded, req)
  {
    forall d | d in t && Reached(t, loaded, d)
      ensures Below(t, req.id, d) && !Occurs(Rest(t, req.id, d), loaded.path + "/") && TidyName(TargetName(loaded, req))
    {
      FoundIsBelow(t, loaded, req, d);
      var child := SomeChild(t, req.id, d);
      ChildForcesTidyName(t, loaded, req, child);
      AgreementForcesFollowing(t, loaded, req, d);
      FollowsIffNoRepeat(t, loaded, req, d);
    }
  }

  /** A successful move keeps every stored path equal to the path spelled by the links
      exactly when no update takes place, or every row the update finds lies below the
      moved folder without repeating its path, and the new name ends in no slash if there
      is such a row: the SQL update goes by prefix and rewrites every occurrence. */
  lemma MoveKeepsIndexIff(t: Table, loaded: Node, req: Request, fault: bool)
    requires Ready(t, loaded, req) && Move(t, loaded, req, fault).Ok?
    ensures Agrees(Move(t, loaded, req, fault).value)
       <==> !Updates(t, loaded, req) || FindsOnlyItsOwn(t, loaded, req)
    ensures UniquePaths(Move(t, loaded, req, fault).value)
  {
    if !Updates(t, loaded, req) {
      NoUpdateAgrees(t, loaded, req);
    } else if FindsOnlyItsOwn(t, loaded, req) {
      OwnUpdateAgrees(t, loaded, req);
    } else if Agrees(MovedRows(t, loaded, req)) {
      AgreementForcesOwn(t, loaded, req);
    }
  }

  /** No path below the moved folder repeats the folder's own path. */
  ghost predicate NoRepeat(t: Table, loaded: Node, id: int)
    requires id in t
  {
    forall d :: d in t && Reached(t, loaded, d) ==> !Occurs(Rest(t, id, d), loaded.path + "/")
  }

  /** Without slashes in names only repetitions are left to do harm. */
  lemma SlashFreeMoveKeepsIndexIffNoRepeat(t: Table, loaded: Node, req: Request, fault: bool)
    requires Ready(t, loaded, req) && Move(t, loaded, req, fault).Ok?
    requires SlashFree(t) && UniquePaths(t) && TidyName(TargetName(loaded, req))
    ensures Indexed(Move(t, loaded, req, fault).value)
       <==> !Updates(t, loaded, req) || NoRepeat(t, loaded, req.id)
  {
    MoveKeepsIndexIff(t, loaded, req, fault);
    forall d | d in t && Reached(t, loaded, d) ensures Below(t, req.id, d) {
      PrefixTestIsAncestry(t, req.id, d);
    }
    TidyMoveStaysTidy(t, loaded, req);
  }

  lemma TidyMoveStaysTidy(t: Table, loaded: Node, req: Request)
    requires Indexed(t) && Admissible(t, loaded, req)
    ensures Indexed(MovedRows(t, loaded, req))
       <==> Agrees(MovedRows(t, loaded, req)) && TidyName(TargetName(loaded, req))
  {
    var r := MovedRows(t, loaded, req);
    forall d | d in t && d != req.id ensures TidyName(r[d].name) {
      assert IndexedAt(t, d);
      OtherRow(t, loaded, req, d);
    }
    if Indexed(r) {
      assert IndexedAt(r, req.id);
      forall d | d in r ensures AgreesAt(r, d) {
        assert IndexedAt(r, d);
      }
    }
  }
}
