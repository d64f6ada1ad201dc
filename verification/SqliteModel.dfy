/** The SQLite tables and what each operation's statements do to them. */
module SqliteModel {
  import opened Types
  import M = MetaModel

  /** `nlink` is a signed column. */
  datatype Row = Row(kind: FileType, size: nat, nlink: int)

  /** Entries are keyed by (parent, name) here. */
  datatype SqlState = SqlState(
    node: map<nat, Row>,
    edge: map<(nat, string), M.Edge>,
    chunk: map<(nat, nat), seq<Slice>>,
    symlink: map<nat, string>,
    nextInode: nat,
    nextSlice: nat)

  datatype SqlOutcome = SqlOutcome(state: SqlState, reply: M.Reply)

  const SQL_INITIAL: SqlState :=
    SqlState(map[ROOT_INODE := Row(Directory, 0, 2)], map[], map[], map[], 2, 1)

  /** A negative count is read back as a large `u32`. */
  function LinksRead(nlink: int): nat { if nlink >= 0 then nlink else nlink % U32 }

  function RowAttr(inode: nat, r: Row): M.Attr { M.Attr(inode, r.kind, r.size, LinksRead(r.nlink)) }

  function SqlFail(q: SqlState, e: M.MetaError): SqlOutcome { SqlOutcome(q, M.Failed(e)) }

  /** `UPDATE node SET nlink = nlink + d`: no row, no effect. */
  function AddLinks(node: map<nat, Row>, inode: nat, d: int): map<nat, Row> {
    if inode in node then node[inode := node[inode].(nlink := node[inode].nlink + d)] else node
  }

  /** The inode an entry leads to, if both the entry and the node are there. */
  function LookupRow(q: SqlState, parent: nat, name: string): Option<nat> {
    if (parent, name) in q.edge && q.edge[(parent, name)].child in q.node
    then Some(q.edge[(parent, name)].child) else None
  }

  function SqlGetAttr(q: SqlState, inode: nat): Result<M.Attr, M.MetaError> {
    if inode in q.node then Ok(RowAttr(inode, q.node[inode])) else Err(M.NotFound)
  }

  function SqlLookup(q: SqlState, parent: nat, name: string): Result<M.Attr, M.MetaError> {
    if |name| > NAME_MAX then Err(M.NameTooLong)
    else match LookupRow(q, parent, name)
      case None => Err(M.NotFound)
      case Some(child) => SqlGetAttr(q, child)
  }

  predicate SqlHasEntries(q: SqlState, dir: nat) {
    exists k | k in q.edge :: k.0 == dir
  }

  function SqlEntryError(q: SqlState, parent: nat, name: string): Option<M.MetaError> {
    if parent !in q.node then Some(M.NotFound)
    else if q.node[parent].kind != Directory then Some(M.NotDirectory)
    else if (parent, name) in q.edge then Some(M.AlreadyExists)
    else None
  }

  function SqlCreate(q: SqlState, parent: nat, name: string, kind: FileType): SqlOutcome {
    if |name| > NAME_MAX then SqlFail(q, M.NameTooLong)
    else match SqlEntryError(q, parent, name)
      case Some(e) => SqlFail(q, e)
      case None =>
        var inode := q.nextInode + 1;
        var q1 := q.(nextInode := inode);
        if inode in q.node then SqlFail(q1, M.Internal)
        else
          var row := Row(kind, 0, M.InitialLinks(kind));
          var q2 := q1.(node := q.node[inode := row], edge := q.edge[(parent, name) := M.Edge(inode, kind)]);
          var q3 := if kind == Directory then q2.(node := AddLinks(q2.node, parent, 1)) else q2;
          SqlOutcome(q3, M.Found(RowAttr(inode, row)))
  }

  function SqlMknod(q: SqlState, parent: nat, name: string, mode: nat): SqlOutcome {
    match M.KindOfMode(mode)
    case None => SqlFail(q, M.NotSupported)
    case Some(kind) => SqlCreate(q, parent, name, kind)
  }

  function SqlSymlink(q: SqlState, parent: nat, name: string, target: string): SqlOutcome {
    if |name| > NAME_MAX then SqlFail(q, M.NameTooLong)
    else match SqlEntryError(q, parent, name)
      case Some(e) => SqlFail(q, e)
      case None =>
        var inode := q.nextInode + 1;
        var q1 := q.(nextInode := inode);
        if inode in q.node then SqlFail(q1, M.Internal)
        else
          var row := Row(FileType.Symlink, |target|, 1);
          var q2 := q1.(node := q.node[inode := row]);
          if inode in q.symlink then SqlFail(q2, M.Internal)
          else
            SqlOutcome(
              q2.(symlink := q.symlink[inode := target],
                  edge := q.edge[(parent, name) := M.Edge(inode, FileType.Symlink)]),
              M.Found(RowAttr(inode, row)))
  }

  function SqlLink(q: SqlState, parent: nat, name: string, inode: nat): SqlOutcome {
    if |name| > NAME_MAX then SqlFail(q, M.NameTooLong)
    else if inode !in q.node then SqlFail(q, M.NotFound)
    else if q.node[inode].kind == Directory then SqlFail(q, M.PermissionDenied)
    else match SqlEntryError(q, parent, name)
      case Some(e) => SqlFail(q, e)
      case None =>
        var node := AddLinks(q.node, inode, 1);
        SqlOutcome(
          q.(edge := q.edge[(parent, name) := M.Edge(inode, q.node[inode].kind)], node := node),
          M.Found(RowAttr(inode, node[inode])))
  }

  function SqlUnlink(q: SqlState, parent: nat, name: string): SqlOutcome {
    if |name| > NAME_MAX then SqlFail(q, M.NameTooLong)
    else match LookupRow(q, parent, name)
      case None => SqlFail(q, M.NotFound)
      case Some(child) =>
        var isDir := q.node[child].kind == Directory;
        if isDir && SqlHasEntries(q, child) then SqlFail(q, M.NotEmpty)
        else
          var node := AddLinks(q.node, child, -1);
          SqlOutcome(
            q.(edge := q.edge - {(parent, name)},
               node := if isDir then AddLinks(node, parent, -1) else node),
            M.Done)
  }

  /** A replaced target loses its entry and, when no link is left, its node row at once. */
  function SqlDisplace(q: SqlState, child: nat, dst: (nat, string)): SqlState
    requires child in q.node
  {
    var isDir := q.node[child].kind == Directory;
    var fewer := AddLinks(q.node, child, -1);
    var kept := if fewer[child].nlink <= 0 then fewer - {child} else fewer;
    q.(edge := q.edge - {dst}, node := if isDir then AddLinks(kept, dst.0, -1) else kept)
  }

  /** The entry moves; a directory carries its link between different parents. */
  function SqlMove(q: SqlState, isDir: bool, src: (nat, string), dst: (nat, string)): SqlOutcome
    requires src in q.edge
  {
    if dst in q.edge && dst != src then SqlFail(q, M.Internal)
    else
      var q1 := q.(edge := (q.edge - {src})[dst := q.edge[src]]);
      SqlOutcome(
        if isDir && src.0 != dst.0 then q1.(node := AddLinks(AddLinks(q1.node, src.0, -1), dst.0, 1)) else q1,
        M.Done)
  }

  function SqlRename(q: SqlState, srcParent: nat, srcName: string, dstParent: nat, dstName: string): SqlOutcome {
    var src, dst := (srcParent, srcName), (dstParent, dstName);
    if |srcName| > NAME_MAX || |dstName| > NAME_MAX then SqlFail(q, M.NameTooLong)
    else if src == dst then SqlOutcome(q, M.Done)
    else match LookupRow(q, srcParent, srcName)
      case None => SqlFail(q, M.NotFound)
      case Some(child) =>
        var isDir := q.node[child].kind == Directory;
        match LookupRow(q, dstParent, dstName)
        case None => SqlMove(q, isDir, src, dst)
        case Some(target) =>
          if q.node[target].kind == Directory && SqlHasEntries(q, target) then SqlFail(q, M.NotEmpty)
          else SqlMove(SqlDisplace(q, target, dst), isDir, src, dst)
  }

  function SqlForget(q: SqlState, inode: nat): SqlOutcome {
    if inode in q.node && q.node[inode].nlink <= 0 then
      SqlOutcome(
        q.(chunk := map k | k in q.chunk && k.0 != inode :: q.chunk[k],
           symlink := q.symlink - {inode},
           node := q.node - {inode}),
        M.Done)
    else SqlOutcome(q, M.Done)
  }

  function SqlSetSize(q: SqlState, inode: nat, size: nat): SqlOutcome {
    if inode !in q.node then SqlFail(q, M.NotFound)
    else
      var row := q.node[inode].(size := size);
      SqlOutcome(q.(node := q.node[inode := row]), M.Found(RowAttr(inode, row)))
  }

  function SqlNextSlice(q: SqlState): SqlOutcome {
    SqlOutcome(q.(nextSlice := q.nextSlice + 1), M.Id(q.nextSlice + 1))
  }

  function SqlReadSlices(q: SqlState, inode: nat, chunk: nat): seq<Slice> {
    if (inode, chunk) in q.chunk then q.chunk[(inode, chunk)] else []
  }

  function SqlReplaceSlices(q: SqlState, inode: nat, chunk: nat, slices: seq<Slice>): SqlOutcome {
    SqlOutcome(q.(chunk := q.chunk[(inode, chunk) := slices]), M.Done)
  }

  function SqlPerform(q: SqlState, op: M.MetaOp): SqlOutcome {
    match op
    case Create(parent, name, kind) => SqlCreate(q, parent, name, kind)
    case Mknod(parent, name, mode) => SqlMknod(q, parent, name, mode)
    case Symlink(parent, name, target) => SqlSymlink(q, parent, name, target)
    case Link(parent, name, inode) => SqlLink(q, parent, name, inode)
    case Unlink(parent, name) => SqlUnlink(q, parent, name)
    case Rename(sp, sn, dp, dn) => SqlRename(q, sp, sn, dp, dn)
    case Forget(inode) => SqlForget(q, inode)
    case SetSize(inode, size) => SqlSetSize(q, inode, size)
    case NextSlice => SqlNextSlice(q)
    case WriteSlice(inode, chunk, slice) =>
      SqlReplaceSlices(q, inode, chunk, SqlReadSlices(q, inode, chunk) + [slice])
    case ReplaceSlices(inode, chunk, slices) => SqlReplaceSlices(q, inode, chunk, slices)
  }
}
