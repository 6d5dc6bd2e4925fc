/** Whole histories of the file tree, and what goes wrong outside the hypotheses. */
module PathTreeRuns {
  import opened Options
  import opened Paths
  import opened PathTree
  import opened PathCycles
  import opened StaleMoves

  /** A move says which object makes it: a node as it was loaded, now or some time ago. */
  datatype Op =
    | CreateNode(id: int, workspace: int, parent: Option<int>, name: string, isFolder: bool, fault: bool)
    | MoveNode(loaded: Node, req: Request, fault: bool)
    | DeleteNode(id: int)

  /** Deleting cascades along the parent links. */
  ghost function Delete(t: Table, id: int): Table {
    map d | d in t && !HasAncestor(t, d, id) :: t[d]
  }

  /** One operation; a failed one leaves the table as it is. */
  ghost predicate Step(t: Table, op: Op, u: Table) {
    match op
    case CreateNode(id, workspace, parent, name, isFolder, fault) =>
      && id !in t && (parent.Some? ==> parent.value in t && t[parent.value].isFolder)
      && u == (var r := Create(t, id, workspace, parent, name, isFolder, fault); if r.Ok? then r.value else t)
    case MoveNode(loaded, req, fault) =>
      && Admissible(t, loaded, req)
      && u == (var r := Move(t, loaded, req, fault); if r.Ok? then r.value else t)
    case DeleteNode(id) =>
      u == Delete(t, id)
  }

  ghost predicate IsRun(trace: seq<Table>, ops: seq<Op>) {
    && |trace| == |ops| + 1
    && trace[0] == map[]
    && forall n {:trigger trace[n], ops[n]} :: 0 <= n < |ops| ==> Step(trace[n], ops[n], trace[n + 1])
  }

  /** What is known about an operation before it is tried: if it goes through, it gives a
      tidy name, and a move is harmless. */
  ghost predicate Safe(t: Table, op: Op)
    requires Indexed(t) && exists u :: Step(t, op, u)
  {
    match op
    case CreateNode(id, workspace, parent, name, isFolder, fault) =>
      Create(t, id, workspace, parent, name, isFolder, fault).Ok? ==> TidyName(name)
    case MoveNode(loaded, req, fault) =>
      Move(t, loaded, req, fault).Ok? ==> TidyName(TargetName(loaded, req)) && Harmless(t, loaded, req)
    case DeleteNode(id) => true
  }

  ghost predicate SafeAt(trace: seq<Table>, ops: seq<Op>, n: nat)
    requires IsRun(trace, ops) && n < |ops|
  {
    assert Step(trace[n], ops[n], trace[n + 1]);
    Indexed(trace[n]) ==> Safe(trace[n], ops[n])
  }

  lemma DeleteKeepsIndex(t: Table, id: int)
    requires Indexed(t)
    ensures Indexed(Delete(t, id))
  {
    var u := Delete(t, id);
    forall d | d in u ensures IndexedAt(u, d) {
      assert IndexedAt(t, d);
      if t[d].parent.Some? {
        var p := t[d].parent.value;
        if HasAncestor(t, p, id) {
          var steps: nat :| Ancestor(t, p, steps) == Some(id);
          AncestorFromParent(t, d, steps);
          assert false;
        }
      }
    }
  }

  lemma CreateKeepsIndexIff(t: Table, op: Op)
    requires Indexed(t) && op.CreateNode? && op.id !in t
    requires op.parent.Some? ==> op.parent.value in t && t[op.parent.value].isFolder
    requires Create(t, op.id, op.workspace, op.parent, op.name, op.isFolder, op.fault).Ok?
    ensures var u := Create(t, op.id, op.workspace, op.parent, op.name, op.isFolder, op.fault).value;
            Indexed(u) <==> TidyName(op.name)
  {
    var u := Create(t, op.id, op.workspace, op.parent, op.name, op.isFolder, op.fault).value;
    forall d | d in u && d != op.id ensures IndexedAt(u, d) {
      assert IndexedAt(t, d);
    }
    assert AgreesAt(u, op.id);
    assert Indexed(u) ==> IndexedAt(u, op.id);
  }

  lemma SafeStepKeepsIndex(t: Table, op: Op, u: Table)
    requires Indexed(t) && Step(t, op, u) && Safe(t, op)
    ensures Indexed(u)
  {
    match op
    case CreateNode(id, workspace, parent, name, isFolder, fault) =>
      if Create(t, id, workspace, parent, name, isFolder, fault).Ok? {
        CreateKeepsIndexIff(t, op);
      }
    case MoveNode(loaded, req, fault) =>
      if Move(t, loaded, req, fault).Ok? {
        HarmlessMoveKeepsIndex(t, loaded, req, fault);
      }
    case DeleteNode(id) => DeleteKeepsIndex(t, id);
  }

  /** A stale object moves something while some name holds a slash. */
  ghost predicate StaleAmongSlashes(t: Table, op: Op) {
    op.MoveNode? && op.req.id in t && op.loaded.path != t[op.req.id].path && !SlashFree(t)
  }

  lemma UnsafeStepLosesIndex(t: Table, op: Op, u: Table)
    requires Indexed(t) && Step(t, op, u) && !Safe(t, op) && !StaleAmongSlashes(t, op)
    ensures !Indexed(u)
  {
    match op
    case CreateNode(id, workspace, parent, name, isFolder, fault) =>
      CreateKeepsIndexIff(t, op);
    case MoveNode(loaded, req, fault) =>
      TidyMoveStaysTidy(t, loaded, req);
      if Indexed(u) {
        MoveKeepsIndexOnlyIfHarmless(t, loaded, req, fault);
      }
    case DeleteNode(id) =>
  }

  /** From an empty tree, through any creates, deletes and moves, failed or not, by fresh
      or stale objects: if every one that goes through is safe, every stored path is the
      path its parent chain spells. */
  lemma {:induction false} RunsStayIndexed(trace: seq<Table>, ops: seq<Op>, n: nat)
    requires IsRun(trace, ops) && n <= |ops| && forall m :: 0 <= m < n ==> SafeAt(trace, ops, m)
    ensures Indexed(trace[n])
    ensures forall id :: id in trace[n] ==> trace[n][id].path == Spelled(trace[n], id)
  {
    if n > 0 {
      RunsStayIndexed(trace, ops, n - 1);
      assert Step(trace[n - 1], ops[n - 1], trace[n]);
      assert SafeAt(trace, ops, n - 1);
      SafeStepKeepsIndex(trace[n - 1], ops[n - 1], trace[n]);
    }
    forall id | id in trace[n] ensures trace[n][id].path == Spelled(trace[n], id) {
      StoredIsSpelled(trace[n], id);
    }
  }

  /** And nothing less will do: the index holds throughout a run exactly when every
      operation in it is safe. */
  lemma RunsStayIndexedIffSafe(trace: seq<Table>, ops: seq<Op>)
    requires IsRun(trace, ops) && forall n :: 0 <= n < |ops| ==> !StaleAmongSlashes(trace[n], ops[n])
    ensures (forall n :: 0 <= n <= |ops| ==> Indexed(trace[n]))
              <==> (forall n :: 0 <= n < |ops| ==> SafeAt(trace, ops, n))
  {
    if forall n :: 0 <= n < |ops| ==> SafeAt(trace, ops, n) {
      forall n | 0 <= n <= |ops| ensures Indexed(trace[n]) {
        RunsStayIndexed(trace, ops, n);
      }
    }
    if forall n :: 0 <= n <= |ops| ==> Indexed(trace[n]) {
      forall n | 0 <= n < |ops| ensures SafeAt(trace, ops, n) {
        assert Step(trace[n], ops[n], trace[n + 1]);
        assert Indexed(trace[n]) && Indexed(trace[n + 1]);
        if !Safe(trace[n], ops[n]) {
          UnsafeStepLosesIndex(trace[n], ops[n], trace[n + 1]);
        }
      }
    }
  }

  /** Hence the parent links never form a cycle. */
  lemma RunsHaveNoCycle(trace: seq<Table>, ops: seq<Op>, n: nat)
    requires IsRun(trace, ops) && n <= |ops| && forall m :: 0 <= m < n ==> SafeAt(trace, ops, m)
    ensures Acyclic(trace[n])
  {
    RunsStayIndexed(trace, ops, n);
    forall id ensures !OnCycle(trace[n], id) {
      if id in trace[n] {
        IndexedHasNoCycle(trace[n], id);
      } else {
        StraysHaveNoCycle(trace[n], id);
      }
    }
  }

  lemma StraysHaveNoCycle(t: Table, id: int)
    requires id !in t
    ensures !OnCycle(t, id)
  {
    forall steps: nat | steps > 0 ensures Ancestor(t, id, steps) != Some(id) {
      assert Ancestor(t, id, 0) == Some(id);
      ClimbEnds(t, id, 1, steps - 1);
    }
  }

  // ---------- Outside the hypotheses ----------

  const BEFORE: Table := map[
    1 := Node(0, None, "a", "/a", true),
    2 := Node(0, Some(1), "b", "/a/b", true),
    3 := Node(0, Some(2), "a", "/a/b/a", true),
    4 := Node(0, Some(3), "c", "/a/b/a/c", true)]

  /** After renaming node 1 to "x": the path of node 4 is rewritten twice. */
  const RENAMED: Table := map[
    1 := Node(0, None, "x", "/x", true),
    2 := Node(0, Some(1), "b", "/x/b", true),
    3 := Node(0, Some(2), "a", "/x/b/a", true),
    4 := Node(0, Some(3), "c", "/x/b/x/c", true)]

  const RENAME := Request(1, Some("x"), None, false)
  const INTO_CHILD := Request(3, None, Some(4), false)

  lemma ReplaceOnce(head: string, rest: string)
    requires |rest| < |head|
    ensures head != "" ==> Replace(head + rest, head, "/x/") == "/x/" + rest
  {
    assert (head + rest)[..|head|] == head && (head + rest)[|head|..] == rest;
  }

  lemma RenameRewritesTwice()
    ensures Replace("/a/b", "/a/", "/x/") == "/x/b"
    ensures Replace("/a/b/a", "/a/", "/x/") == "/x/b/a"
    ensures Replace("/a/b/a/c", "/a/", "/x/") == "/x/b/x/c"
  {
    ReplaceOnce("/a/", "b");
    assert "/a/b" == "/a/" + "b" && "/x/b" == "/x/" + "b";

    assert Replace("a", "/a/", "/x/") == "a";
    assert Replace("/a", "/a/", "/x/") == "/a";
    assert Replace("b/a", "/a/", "/x/") == ['b'] + Replace("/a", "/a/", "/x/") == "b/a" by {
      assert "b/a"[1..] == "/a";
      assert "b/a"[0] == 'b' && "/a/"[0] == '/';
    }
    assert "/a/b/a"[..3] == "/a/" && "/a/b/a"[3..] == "b/a";
    assert "/x/b/a" == "/x/" + "b/a";

    ReplaceOnce("/a/", "c");
    assert "/a/c" == "/a/" + "c";
    assert Replace("b/a/c", "/a/", "/x/") == ['b'] + Replace("/a/c", "/a/", "/x/") by {
      assert "b/a/c"[1..] == "/a/c";
      assert "b/a/c"[0] == 'b' && "/a/"[0] == '/';
    }
    assert "/a/b/a/c"[..3] == "/a/" && "/a/b/a/c"[3..] == "b/a/c";
    assert "/x/b/x/c" == "/x/" + (['b'] + ("/x/" + "c"));
  }

  lemma BeforeIsIndexed()
    ensures Indexed(BEFORE) && UniquePaths(BEFORE)
  {
    StripKeeps("/a");
    StripKeeps("/a/b");
    StripKeeps("/a/b/a");
    assert BEFORE[1].path == BuildPath(BEFORE, BEFORE[1].parent, BEFORE[1].name);
    assert BEFORE[2].path == BuildPath(BEFORE, BEFORE[2].parent, BEFORE[2].name);
    assert BEFORE[3].path == BuildPath(BEFORE, BEFORE[3].parent, BEFORE[3].name);
    assert BEFORE[4].path == BuildPath(BEFORE, BEFORE[4].parent, BEFORE[4].name);
    DistinctLengths(BEFORE);
  }

  lemma DistinctLengths(t: Table)
    requires forall a, b :: a in t && b in t && a != b ==> |t[a].path| != |t[b].path|
    ensures UniquePaths(t)
  {
  }

  lemma RenameReaches()
    ensures !StartsWith("/a", "/a/")
    ensures StartsWith("/a/b", "/a/") && StartsWith("/a/b/a", "/a/") && StartsWith("/a/b/a/c", "/a/")
  {
    assert "/a/b"[..3] == "/a/" && "/a/b/a"[..3] == "/a/" && "/a/b/a/c"[..3] == "/a/";
  }

  lemma RenameBulkUpdate(id: int)
    requires id in BEFORE
    ensures Rewritten(BEFORE, 0, "/a", "/x")[id] ==
              BEFORE[id].(path := if id == 1 then "/a" else RENAMED[id].path)
  {
    RenameReaches();
    RenameRewritesTwice();
    assert "/a" + "/" == "/a/" && "/x" + "/" == "/x/";
  }

  lemma RenameRows()
    ensures Admissible(BEFORE, BEFORE[1], RENAME) && MovedRows(BEFORE, BEFORE[1], RENAME) == RENAMED
  {
    assert NewPath(BEFORE, BEFORE[1], RENAME) == "/x";
    var u := MovedRows(BEFORE, BEFORE[1], RENAME);
    assert u.Keys == RENAMED.Keys;
    forall id | id in RENAMED ensures u[id] == RENAMED[id] {
      RenameBulkUpdate(id);
    }
  }

  lemma RenameMove()
    ensures Admissible(BEFORE, BEFORE[1], RENAME) && Move(BEFORE, BEFORE[1], RENAME, false) == Ok(RENAMED)
  {
    RenameRows();
    DistinctLengths(RENAMED);
  }

  lemma IntoChildMove()
    ensures Admissible(RENAMED, RENAMED[3], INTO_CHILD) && Move(RENAMED, RENAMED[3], INTO_CHILD, false).Ok?
    ensures Move(RENAMED, RENAMED[3], INTO_CHILD, false).value[3].parent == Some(4)
    ensures Move(RENAMED, RENAMED[3], INTO_CHILD, false).value[4].parent == Some(3)
  {
    var from := "/x/b/a" + "/";
    assert RENAMED[3].path + "/" == from;
    assert !StartsWith("/x/b/x/c", from) by {
      assert "/x/b/x/c"[..7][5] == 'x' && from[5] == 'a';
    }
    assert !StartsWith("/x", from) && !StartsWith("/x/b", from) && !StartsWith("/x/b/a", from);
    StripKeeps("/x/b/x/c");
    var newPath := NewPath(RENAMED, RENAMED[3], INTO_CHILD);
    assert newPath == "/x/b/x/c" + "/" + "a";
    assert Rewritten(RENAMED, 0, "/x/b/a", newPath) == RENAMED;
    DistinctLengths(MovedRows(RENAMED, RENAMED[3], INTO_CHILD));
  }

  /** A folder "a" that holds another "a" two levels down: renaming the outer one
      leaves a wrong path, the prefix test then misses a real descendant, and the
      next move closes a cycle in the parent links. */
  lemma RepeatedSegmentAllowsCycle()
    ensures Indexed(BEFORE) && UniquePaths(BEFORE)
    ensures Admissible(BEFORE, BEFORE[1], RENAME) && Move(BEFORE, BEFORE[1], RENAME, false) == Ok(RENAMED)
              && !Indexed(RENAMED)
    ensures Admissible(RENAMED, RENAMED[3], INTO_CHILD) && Move(RENAMED, RENAMED[3], INTO_CHILD, false).Ok?
    ensures OnCycle(Move(RENAMED, RENAMED[3], INTO_CHILD, false).value, 3)
  {
    BeforeIsIndexed();
    RenameMove();
    IntoChildMove();
    var u := Move(RENAMED, RENAMED[3], INTO_CHILD, false).value;
    assert Ancestor(u, 3, 1) == Some(4);
    assert Ancestor(u, 3, 2) == Some(3);
    RenamedIsNotIndexed();
  }

  lemma RenamedIsNotIndexed()
    ensures !Indexed(RENAMED)
  {
    StripKeeps("/x/b/a");
    assert BuildPath(RENAMED, Some(3), "c") == "/x/b/a" + "/" + "c";
    assert ("/x/b/a" + "/" + "c")[5] == 'a' && RENAMED[4].path[5] == 'x';
    assert !IndexedAt(RENAMED, 4);
  }

  const SLASHED: Table := map[1 := Node(0, None, "a", "/a", true), 2 := Node(0, None, "a/b", "/a/b", false)]

  lemma SlashedIsIndexed()
    ensures Indexed(SLASHED) && UniquePaths(SLASHED) && !Below(SLASHED, 1, 2)
  {
    assert SLASHED[1].path == "" + "/" + "a" && SLASHED[2].path == "" + "/" + "a/b";
    DistinctLengths(SLASHED);
  }

  lemma SlashedRename()
    ensures Admissible(SLASHED, SLASHED[1], RENAME) && Move(SLASHED, SLASHED[1], RENAME, false).Ok?
    ensures Updates(SLASHED, SLASHED[1], RENAME) && Reached(SLASHED, SLASHED[1], 2)
  {
    RenameReaches();
    RenameRewritesTwice();
    assert "/a" + "/" == "/a/" && "/x" + "/" == "/x/";
    assert NewPath(SLASHED, SLASHED[1], RENAME) == "/x";
    var u := MovedRows(SLASHED, SLASHED[1], RENAME);
    assert u[1].path == "/x" && u[2].path == "/x/b";
    DistinctLengths(u);
  }

  /** A name with a slash defeats the index as well: the root item "a/b" is found by the
      update when the unrelated folder "a" is renamed. */
  lemma SlashInNameBreaksIndex()
    ensures Indexed(SLASHED) && UniquePaths(SLASHED)
    ensures Admissible(SLASHED, SLASHED[1], RENAME) && Move(SLASHED, SLASHED[1], RENAME, false).Ok?
    ensures !Agrees(Move(SLASHED, SLASHED[1], RENAME, false).value)
  {
    SlashedIsIndexed();
    SlashedRename();
    MoveKeepsIndexIff(SLASHED, SLASHED[1], RENAME, false);
  }

  /** A folder whose own name ends in a slash loses its children with every move that changes
      what they stand under: their paths do not start with its path and another slash. */
  lemma SlashEndedFolderLosesChildren(t: Table, loaded: Node, req: Request, fault: bool, child: int)
    requires Agrees(t) && Admissible(t, loaded, req) && loaded.path == t[req.id].path
    requires loaded.path != "" && loaded.path[|loaded.path| - 1] == '/'
    requires child in t && t[child].parent == Some(req.id) && t[child].name != "" && t[child].name[0] != '/'
    requires Move(t, loaded, req, fault).Ok? && RStripSlash(NewPath(t, loaded, req)) != RStripSlash(loaded.path)
    ensures !Agrees(Move(t, loaded, req, fault).value)
  {
    var r, base, name := MovedRows(t, loaded, req), RStripSlash(loaded.path), t[child].name;
    assert AgreesAt(t, child);
    assert t[child].path == base + "/" + name;
    StripLeavesSlashes(loaded.path);
    assert |base| < |loaded.path| && t[child].path[|base| + 1] == name[0];
    assert (loaded.path + "/")[|base| + 1] == '/';
    assert !Reached(t, loaded, child);
    OtherRow(t, loaded, req, child);
    if Agrees(r) {
      assert AgreesAt(r, child);
      SameParentPath(RStripSlash(NewPath(t, loaded, req)), base, name);
    }
  }

  /** Two folders "a" and "x" side by side below a folder "a". */
  const TWINS: Table := map[
    1 := Node(0, None, "a", "/a", true),
    2 := Node(0, Some(1), "b", "/a/b", true),
    3 := Node(0, Some(2), "a", "/a/b/a", true),
    4 := Node(0, Some(3), "c", "/a/b/a/c", true),
    5 := Node(0, Some(2), "x", "/a/b/x", true),
    6 := Node(0, Some(5), "c", "/a/b/x/c", true)]

  lemma TwinPath()
    ensures StartsWith("/a/b/x/c", "/a/") && Replace("/a/b/x/c", "/a/", "/x/") == "/x/b/x/c"
  {
    assert "/a/b/x/c" == "/a/" + "b/x/c" && "/x/b/x/c" == "/x/" + "b/x/c";
    assert !Occurs("b/x/c", "/a/") by {
      assert "b/x/c"[1..] == "/x/c" && "/x/c"[1..] == "x/c";
      assert "/x/c"[1] == 'x' && "/a/"[1] == 'a';
    }
    ReplaceHead("b/x/c", "/a/", "/x/");
  }

  lemma TwinsUpdate()
    ensures Admissible(TWINS, TWINS[1], RENAME) && NewPath(TWINS, TWINS[1], RENAME) == "/x"
    ensures Reached(TWINS, TWINS[1], 4) && Reached(TWINS, TWINS[1], 6)
    ensures Updates(TWINS, TWINS[1], RENAME)
  {
    RenameReaches();
    TwinPath();
    assert "/a" + "/" == "/a/" && "/x" == "" + "/" + "x";
  }

  lemma TwinRow(id: int)
    requires id == 4 || id == 6
    ensures Admissible(TWINS, TWINS[1], RENAME) && MovedRows(TWINS, TWINS[1], RENAME)[id].path == "/x/b/x/c"
  {
    TwinsUpdate();
    RenameRewritesTwice();
    TwinPath();
    OtherRow(TWINS, TWINS[1], RENAME, id);
    assert TWINS[1].path + "/" == "/a/" && NewPath(TWINS, TWINS[1], RENAME) + "/" == "/x/";
  }

  lemma NoTwinIsNamedX(d: int)
    requires d in TWINS
    ensures TWINS[d].path != "/x"
  {
    assert TWINS[d].path[1] == 'a';
  }

  /** A repeated segment can even make two rows below the node collide: renaming the outer "a"
      to "x" fails although no row has the path "/x". */
  lemma RepeatedSegmentCollides()
    ensures Admissible(TWINS, TWINS[1], RENAME) && NewPath(TWINS, TWINS[1], RENAME) == "/x"
    ensures forall d :: d in TWINS ==> TWINS[d].path != "/x"
    ensures Move(TWINS, TWINS[1], RENAME, false) == Err(DatabaseError)
  {
    TwinsUpdate();
    TwinRow(4);
    TwinRow(6);
    CollisionFails(TWINS, TWINS[1], RENAME, 4, 6);
    forall d | d in TWINS ensures TWINS[d].path != "/x" {
      NoTwinIsNamedX(d);
    }
  }

  lemma CollisionFails(t: Table, loaded: Node, req: Request, d: int, e: int)
    requires Admissible(t, loaded, req) && Refusal(t, loaded, req).None?
    requires d in t && e in t && d != e && d != req.id && e != req.id && t[d].workspace == t[e].workspace
    requires MovedRows(t, loaded, req)[d].path == MovedRows(t, loaded, req)[e].path
    ensures Move(t, loaded, req, false) == Err(DatabaseError)
  {
    OtherRow(t, loaded, req, d);
    OtherRow(t, loaded, req, e);
  }

  // ---------- A bulk move ----------

  const SELECTED: Table := map[
    1 := Node(0, None, "t", "/t", true),
    2 := Node(0, None, "aa", "/aa", true),
    3 := Node(0, Some(2), "b", "/aa/b", true),
    4 := Node(0, Some(3), "c", "/aa/b/c", false)]

  /** After node 2 has been moved into node 1. */
  const HALFWAY: Table := map[
    1 := Node(0, None, "t", "/t", true),
    2 := Node(0, Some(1), "aa", "/t/aa", true),
    3 := Node(0, Some(2), "b", "/t/aa/b", true),
    4 := Node(0, Some(3), "c", "/t/aa/b/c", false)]

  lemma SelectedIsIndexed()
    ensures Indexed(SELECTED) && SlashFree(SELECTED) && Below(SELECTED, 2, 3) && Below(SELECTED, 2, 4)
  {
    StripKeeps("/aa");
    StripKeeps("/aa/b");
    assert SELECTED[1].path == BuildPath(SELECTED, None, "t") && SELECTED[2].path == BuildPath(SELECTED, None, "aa");
    assert SELECTED[3].path == BuildPath(SELECTED, Some(2), "b");
    assert SELECTED[4].path == BuildPath(SELECTED, Some(3), "c");
    assert Below(SELECTED, 2, 3);
  }

  lemma SelectedFinds(id: int)
    requires id in SELECTED && Reached(SELECTED, SELECTED[2], id)
    ensures (id == 3 || id == 4) && !Occurs(Rest(SELECTED, 2, id), SELECTED[2].path + "/")
  {
    assert "/aa" + "/" == "/aa/" && SELECTED[1].path[1] == 't';
    assert Rest(SELECTED, 2, 3) == "b" && Rest(SELECTED, 2, 4) == "b/c";
  }

  lemma SelectedIsReady()
    ensures Ready(SELECTED, SELECTED[2], Into(2, Some(1))) && Refusal(SELECTED, SELECTED[2], Into(2, Some(1))).None?
    ensures FindsOnlyItsOwn(SELECTED, SELECTED[2], Into(2, Some(1)))
  {
    SelectedIsIndexed();
    assert SELECTED[1].path[1] == 't' && (SELECTED[2].path + "/")[1] == 'a';
    forall id | id in SELECTED && Reached(SELECTED, SELECTED[2], id)
      ensures Below(SELECTED, 2, id) && !Occurs(Rest(SELECTED, 2, id), SELECTED[2].path + "/")
    {
      SelectedFinds(id);
    }
  }

  lemma FirstMoveOfSelection()
    ensures Updates(SELECTED, SELECTED[2], Into(2, Some(1)))
    ensures MovedRows(SELECTED, SELECTED[2], Into(2, Some(1))) == HALFWAY
  {
    var u := MovedRows(SELECTED, SELECTED[2], Into(2, Some(1)));
    StripKeeps("/t");
    assert NewPath(SELECTED, SELECTED[2], Into(2, Some(1))) == "/t/aa";
    assert "/aa" + "/" == "/aa/" && "/t/aa" + "/" == "/t/aa/";
    assert !StartsWith("/t", "/aa/");
    assert "/aa/b" == "/aa/" + "b" && "/aa/b/c" == "/aa/" + "b/c";
    assert StartsWith("/aa/b", "/aa/") && StartsWith("/aa/b/c", "/aa/");
    ReplaceAbsent("b", "/aa/", "/t/aa/");
    ReplaceAbsent("b/c", "/aa/", "/t/aa/");
    assert u[3].path == "/t/aa/" + "b" == "/t/aa/b" && u[4].path == "/t/aa/" + "b/c" == "/t/aa/b/c";
    assert u.Keys == HALFWAY.Keys;
  }

  /** After node 3, loaded before the first move, has been moved into node 1 as well. */
  const TORN: Table := map[
    1 := Node(0, None, "t", "/t", true),
    2 := Node(0, Some(1), "aa", "/t/aa", true),
    3 := Node(0, Some(1), "b", "/t/b", true),
    4 := Node(0, Some(3), "c", "/t/aa/b/c", false)]

  lemma NothingUnderOldPath(id: int)
    requires id in HALFWAY
    ensures !Reached(HALFWAY, SELECTED[3], id)
  {
    assert "/aa/b" + "/" == "/aa/b/";
    assert HALFWAY[id].path[1] == 't' && "/aa/b/"[1] == 'a';
  }

  lemma SecondRows()
    ensures HasTarget(HALFWAY, SELECTED[3], Into(3, Some(1)))
    ensures MovedRows(HALFWAY, SELECTED[3], Into(3, Some(1))) == TORN
  {
    var req := Into(3, Some(1));
    StripKeeps("/t");
    assert NewPath(HALFWAY, SELECTED[3], req) == "/t/b";
    var v := MovedRows(HALFWAY, SELECTED[3], req);
    assert v.Keys == TORN.Keys;
    forall id | id in TORN ensures v[id] == TORN[id] {
      if id != 3 {
        NothingUnderOldPath(id);
        OtherRow(HALFWAY, SELECTED[3], req, id);
      }
    }
  }

  lemma SecondMoveOfSelection()
    ensures HasTarget(HALFWAY, SELECTED[3], Into(3, Some(1)))
    ensures Move(HALFWAY, SELECTED[3], Into(3, Some(1)), false) == Ok(TORN)
  {
    SecondRows();
    NothingUnderOldPath(1);
    DistinctLengths(TORN);
  }

  /** Moving "aa" and its child "b" into "t" in one go: "c" keeps the path "/t/aa/b/c" while its
      parent "b" now stands at "/t/b". */
  lemma BulkMoveLeavesChildBehind()
    ensures Indexed(SELECTED) && MovedRows(SELECTED, SELECTED[2], Into(2, Some(1))) == HALFWAY
    ensures Move(HALFWAY, SELECTED[3], Into(3, Some(1)), false) == Ok(TORN) && !Agrees(TORN)
  {
    SelectedIsReady();
    SelectedIsIndexed();
    FirstMoveOfSelection();
    SecondMoveOfSelection();
    BulkMoveTearsNested(SELECTED, 2, 3, 4, Some(1), false);
  }
}
