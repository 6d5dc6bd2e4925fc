/** A loaded `Node` object moving itself: the object's fields and the table change
    together, or neither does. */
module NodeObject {
  import opened Options
  import opened Paths
  import opened PathTree

  class NodeTable {
    var rows: Table

    constructor (rows: Table)
      ensures this.rows == rows
    {
      this.rows := rows;
    }
  }

  class LoadedNode {
    const id: int
    const workspace: int
    const isFolder: bool
    const table: NodeTable
    var name: string
    var parent: Option<int>
    var path: string

    /** Loads an existing row. */
    constructor (table: NodeTable, id: int)
      requires id in table.rows
      ensures this.table == table && this.id == id && InSync()
    {
      this.table, this.id := table, id;
      workspace, isFolder := table.rows[id].workspace, table.rows[id].isFolder;
      name, parent, path := table.rows[id].name, table.rows[id].parent, table.rows[id].path;
    }

    ghost predicate InSync()
      reads this, table
    {
      id in table.rows && table.rows[id] == Node(workspace, parent, name, path, isFolder)
    }

    /** The node as this object holds it, whatever its row says by now. */
    function Loaded(): Node
      reads this
    {
      Node(workspace, parent, name, path, isFolder)
    }

    /** The three checks on the target folder. */
    method RefuseTarget(target: Option<int>) returns (error: Option<MoveError>)
      requires target.Some? ==> target.value in table.rows
      ensures error == Refusal(table.rows, Loaded(), Request(id, None, target, target.None?))
      ensures error == Some(IntoDescendant) ==> target.Some? && path + "/" <= table.rows[target.value].path
    {
      if target.Some? && table.rows[target.value].workspace != workspace {
        return Some(OtherWorkspace);
      }
      if target.Some? && target.value == id {
        return Some(OwnParent);
      }
      if target.Some? && StartsWith(table.rows[target.value].path, path + "/") {
        return Some(IntoDescendant);
      }
      return None;
    }

    /** The transaction of a move; when it fails the table is rolled back. */
    method SaveMoved(oldPath: string, newPath: string, fault: bool) returns (saved: bool)
      modifies this`path, table
      ensures path == newPath
      ensures var rows := Stored(old(table.rows), id, oldPath, Node(workspace, parent, name, newPath, isFolder));
              && (saved <==> !fault && UniquePaths(rows))
              && table.rows == (if saved then rows else old(table.rows))
    {
      var before := table.rows;
      if isFolder && oldPath != newPath {
        table.rows := Rewritten(table.rows, workspace, oldPath, newPath);
      }
      path := newPath;
      table.rows := table.rows[id := Node(workspace, parent, name, path, isFolder)];
      saved := !fault && UniquePaths(table.rows);
      if !saved {
        table.rows := before;
      }
    }

    /** `fault`: the database raises inside the transaction.  The object need not be in
        step with its row; after a successful move it is. */
    method Move(newName: Option<string>, newParent: Option<int>, toRoot: bool, fault: bool)
      returns (error: Option<MoveError>)
      requires HasTarget(table.rows, Loaded(), Request(id, newName, newParent, toRoot))
      modifies this, table
      ensures var r := PathTree.Move(old(table.rows), old(Loaded()), Request(id, newName, newParent, toRoot), fault);
              && (error.None? <==> r.Ok?)
              && table.rows == (if r.Ok? then r.value else old(table.rows))
              && (error.Some? ==> r == Err(error.value))
      ensures error.Some? ==> Loaded() == old(Loaded())
      ensures error.None? ==> InSync()
    {
      var targetName := if newName.Some? then newName.value else name;
      var targetParent := if toRoot then None else if newParent.Some? then newParent else parent;
      error := RefuseTarget(targetParent);
      if error.Some? {
        return;
      }
      var oldName, oldParent, oldPath := name, parent, path;
      name, parent := targetName, targetParent;
      var newPath := BuildPath(table.rows, parent, name);
      var saved := SaveMoved(oldPath, newPath, fault);
      if !saved {
        name, parent, path := oldName, oldParent, oldPath;
        return Some(DatabaseError);
      }
      return None;
    }
  }
}
