/** The SQLite engine: every statement takes effect at once, one after the other. */
module SqliteEngine {
  import opened Types
  import M = MetaModel
  import opened SqliteModel

  class SqliteMetaEngine {
    var node: map<nat, Row>
    var edge: map<(nat, string), M.Edge>
    var chunk: map<(nat, nat), seq<Slice>>
    var symlink: map<nat, string>
    var nextInode: nat
    var nextSlice: nat

    ghost function View(): SqlState
      reads this
    {
      SqlState(node, edge, chunk, symlink, nextInode, nextSlice)
    }

    /** A fresh database after `init`. */
    constructor ()
      ensures View() == SQL_INITIAL
    {
      node := map[ROOT_INODE := Row(Directory, 0, 2)];
      edge, chunk, symlink := map[], map[], map[];
      nextInode, nextSlice := 2, 1;
    }

    /** `UPDATE node SET nlink = nlink + d WHERE inode = ?` */
    method UpdateLinks(inode: nat, d: int)
      modifies this`node
      ensures node == AddLinks(old(node), inode, d)
    {
      if inode in node {
        node := node[inode := node[inode].(nlink := node[inode].nlink + d)];
      }
    }

    method GetAttr(inode: nat) returns (r: Result<M.Attr, M.MetaError>)
      ensures r == SqlGetAttr(View(), inode)
    {
      if inode !in node {
        return Err(M.NotFound);
      }
      return Ok(RowAttr(inode, node[inode]));
    }

    method LookupLocked(parent: nat, name: string) returns (r: Result<M.Attr, M.MetaError>)
      ensures LookupRow(View(), parent, name).None? ==> r == Err(M.NotFound)
      ensures LookupRow(View(), parent, name).Some? ==>
                var child := LookupRow(View(), parent, name).value;
                r == Ok(RowAttr(child, node[child]))
    {
      if (parent, name) !in edge {
        return Err(M.NotFound);
      }
      r := GetAttr(edge[(parent, name)].child);
    }

    method Lookup(parent: nat, name: string) returns (r: Result<M.Attr, M.MetaError>)
      ensures r == SqlLookup(View(), parent, name)
    {
      if |name| > NAME_MAX {
        return Err(M.NameTooLong);
      }
      r := LookupLocked(parent, name);
    }

    /** `SELECT COUNT(*) FROM edge WHERE parent = ?` */
    method CountEntries(dir: nat) returns (count: nat)
      ensures count > 0 <==> SqlHasEntries(View(), dir)
    {
      count := 0;
      var todo := edge.Keys;
      while todo != {}
        invariant todo <= edge.Keys
        invariant count > 0 <==> exists k | k in edge && k !in todo :: k.0 == dir
        decreases todo
      {
        var k :| k in todo;
        todo := todo - {k};
        if k.0 == dir {
          count := count + 1;
        }
      }
    }

    /** Parent and name checks shared by the operations that add an entry. */
    method CheckEntry(parent: nat, name: string) returns (r: Option<M.MetaError>)
      ensures r == SqlEntryError(View(), parent, name)
    {
      var attr := GetAttr(parent);
      if attr.Err? {
        return Some(attr.error);
      }
      if attr.value.kind != Directory {
        return Some(M.NotDirectory);
      }
      if (parent, name) in edge {
        return Some(M.AlreadyExists);
      }
      return None;
    }

    method Create(parent: nat, name: string, kind: FileType) returns (r: M.Reply)
      modifies this
      ensures SqlOutcome(View(), r) == SqlCreate(old(View()), parent, name, kind)
    {
      if |name| > NAME_MAX {
        return M.Failed(M.NameTooLong);
      }
      var refused := CheckEntry(parent, name);
      if refused.Some? {
        return M.Failed(refused.value);
      }
      nextInode := nextInode + 1;
      var inode := nextInode;
      if inode in node {
        return M.Failed(M.Internal);
      }
      node := node[inode := Row(kind, 0, if kind == Directory then 2 else 1)];
      edge := edge[(parent, name) := M.Edge(inode, kind)];
      if kind == Directory {
        UpdateLinks(parent, 1);
      }
      var attr := GetAttr(inode);
      return M.Found(attr.value);
    }

    method Mknod(parent: nat, name: string, mode: nat) returns (r: M.Reply)
      modifies this
      ensures SqlOutcome(View(), r) == SqlMknod(old(View()), parent, name, mode)
    {
      var kind := M.KindOfMode(mode);
      if kind.None? {
        return M.Failed(M.NotSupported);
      }
      r := Create(parent, name, kind.value);
    }

    method Symlink(parent: nat, name: string, target: string) returns (r: M.Reply)
      modifies this
      ensures SqlOutcome(View(), r) == SqlSymlink(old(View()), parent, name, target)
    {
      if |name| > NAME_MAX {
        return M.Failed(M.NameTooLong);
      }
      var refused := CheckEntry(parent, name);
      if refused.Some? {
        return M.Failed(refused.value);
      }
      nextInode := nextInode + 1;
      var inode := nextInode;
      if inode in node {
        return M.Failed(M.Internal);
      }
      node := node[inode := Row(FileType.Symlink, |target|, 1)];
      if inode in symlink {
        return M.Failed(M.Internal);
      }
      symlink := symlink[inode := target];
      edge := edge[(parent, name) := M.Edge(inode, FileType.Symlink)];
      var attr := GetAttr(inode);
      return M.Found(attr.value);
    }

    method Link(parent: nat, name: string, inode: nat) returns (r: M.Reply)
      modifies this
      ensures SqlOutcome(View(), r) == SqlLink(old(View()), parent, name, inode)
    {
      if |name| > NAME_MAX {
        return M.Failed(M.NameTooLong);
      }
      var attr := GetAttr(inode);
      if attr.Err? {
        return M.Failed(attr.error);
      }
      if attr.value.kind == Directory {
        return M.Failed(M.PermissionDenied);
      }
      var refused := CheckEntry(parent, name);
      if refused.Some? {
        return M.Failed(refused.value);
      }
      edge := edge[(parent, name) := M.Edge(inode, attr.value.kind)];
      UpdateLinks(inode, 1);
      attr := GetAttr(inode);
      return M.Found(attr.value);
    }

    method Unlink(parent: nat, name: string) returns (r: M.Reply)
      modifies this
      ensures SqlOutcome(View(), r) == SqlUnlink(old(View()), parent, name)
    {
      if |name| > NAME_MAX {
        return M.Failed(M.NameTooLong);
      }
      var attr := LookupLocked(parent, name);
      if attr.Err? {
        return M.Failed(attr.error);
      }
      var isDir := attr.value.kind == Directory;
      if isDir {
        var count := CountEntries(attr.value.inode);
        if count > 0 {
          return M.Failed(M.NotEmpty);
        }
      }
      edge := edge - {(parent, name)};
      UpdateLinks(attr.value.inode, -1);
      if isDir {
        UpdateLinks(parent, -1);
      }
      return M.Done;
    }

    method Rename(srcParent: nat, srcName: string, dstParent: nat, dstName: string) returns (r: M.Reply)
      modifies this
      ensures SqlOutcome(View(), r) == SqlRename(old(View()), srcParent, srcName, dstParent, dstName)
    {
      hide SqlDisplace, SqlMove;
      if |srcName| > NAME_MAX || |dstName| > NAME_MAX {
        return M.Failed(M.NameTooLong);
      }
      if srcParent == dstParent && srcName == dstName {
        return M.Done;
      }
      var attr := LookupLocked(srcParent, srcName);
      if attr.Err? {
        return M.Failed(attr.error);
      }
      var dst := LookupLocked(dstParent, dstName);
      if dst.Ok? {
        if dst.value.kind == Directory {
          var count := CountEntries(dst.value.inode);
          if count > 0 {
            return M.Failed(M.NotEmpty);
          }
        }
        Displace(dst.value.inode, (dstParent, dstName));
      }
      r := Move(attr.value.kind == Directory, (srcParent, srcName), (dstParent, dstName));
    }

    /** Deletes the target's entry, lowers its count and deletes its row if that was the last link. */
    method Displace(child: nat, dst: (nat, string))
      requires child in node
      modifies this`node, this`edge
      ensures View() == SqlDisplace(old(View()), child, dst)
      ensures edge == old(edge) - {dst}
    {
      var isDir := node[child].kind == Directory;
      edge := edge - {dst};
      UpdateLinks(child, -1);
      if node[child].nlink <= 0 {
        node := node - {child};
      }
      if isDir {
        UpdateLinks(dst.0, -1);
      }
    }

    /** `UPDATE edge SET parent, name`: the primary key refuses a name that is still taken. */
    method Move(isDir: bool, src: (nat, string), dst: (nat, string)) returns (r: M.Reply)
      requires src in edge
      modifies this`node, this`edge
      ensures SqlOutcome(View(), r) == SqlMove(old(View()), isDir, src, dst)
    {
      if dst in edge && dst != src {
        return M.Failed(M.Internal);
      }
      var moved := edge[src];
      edge := (edge - {src})[dst := moved];
      if isDir && src.0 != dst.0 {
        UpdateLinks(src.0, -1);
        UpdateLinks(dst.0, 1);
      }
      return M.Done;
    }

    method Forget(inode: nat)
      modifies this
      ensures View() == SqlForget(old(View()), inode).state
    {
      var nlink := if inode in node then node[inode].nlink else 1;
      if nlink <= 0 {
        chunk := map k | k in chunk && k.0 != inode :: chunk[k];
        symlink := symlink - {inode};
        node := node - {inode};
      }
    }

    method SetSize(inode: nat, size: nat) returns (r: M.Reply)
      modifies this`node
      ensures SqlOutcome(View(), r) == SqlSetSize(old(View()), inode, size)
    {
      if inode in node {
        node := node[inode := node[inode].(size := size)];
      }
      var attr := GetAttr(inode);
      return if attr.Ok? then M.Found(attr.value) else M.Failed(attr.error);
    }

    method NextSliceId() returns (id: nat)
      modifies this`nextSlice
      ensures SqlOutcome(View(), M.Id(id)) == SqlNextSlice(old(View()))
    {
      nextSlice := nextSlice + 1;
      id := nextSlice;
    }

    method WriteSlice(inode: nat, idx: nat, slice: Slice)
      modifies this`chunk
      ensures View() == SqlPerform(old(View()), M.WriteSlice(inode, idx, slice)).state
    {
      var slices := if (inode, idx) in chunk then chunk[(inode, idx)] else [];
      slices := slices + [slice];
      chunk := chunk[(inode, idx) := slices];
    }

    method ReplaceSlices(inode: nat, idx: nat, slices: seq<Slice>)
      modifies this`chunk
      ensures View() == SqlReplaceSlices(old(View()), inode, idx, slices).state
    {
      chunk := chunk[(inode, idx) := slices];
    }
  }
}
