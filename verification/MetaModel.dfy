/** The redb metadata tables and what each operation does to them, as functions of the tables. */
module MetaModel {
  import opened Types

  datatype Node = Node(kind: FileType, size: nat, nlink: nat)

  datatype Edge = Edge(child: nat, kind: FileType)

  type Nodes = map<nat, Node>

  /** Directory entries, keyed by (name, parent). */
  type Edges = map<(string, nat), Edge>

  datatype MetaState = MetaState(
    nodes: Nodes,
    edges: Edges,
    chunks: map<(nat, nat), seq<Slice>>,
    symlinks: map<nat, string>,
    nextInode: nat,
    nextSlice: nat)

  datatype MetaError =
    | NotFound | AlreadyExists | NotDirectory | NotEmpty
    | PermissionDenied | NotSupported | NameTooLong | Internal

  datatype Attr = Attr(inode: nat, kind: FileType, size: nat, nlink: nat)

  datatype Reply = Failed(error: MetaError) | Done | Found(attr: Attr) | Id(id: nat)

  datatype Outcome = Outcome(state: MetaState, reply: Reply)

  /** The changing operations of the engine. */
  datatype MetaOp =
    | Create(parent: nat, name: string, kind: FileType)
    | Mknod(parent: nat, name: string, mode: nat)
    | Symlink(parent: nat, name: string, target: string)
    | Link(parent: nat, name: string, inode: nat)
    | Unlink(parent: nat, name: string)
    | Rename(srcParent: nat, srcName: string, dstParent: nat, dstName: string)
    | Forget(inode: nat)
    | SetSize(inode: nat, size: nat)
    | NextSlice
    | WriteSlice(inode: nat, chunk: nat, slice: Slice)
    | ReplaceSlices(inode: nat, chunk: nat, slices: seq<Slice>)

  const INITIAL: MetaState :=
    MetaState(map[ROOT_INODE := Node(Directory, 0, 2)], map[], map[], map[], 2, 1)

  function ToAttr(inode: nat, n: Node): Attr { Attr(inode, n.kind, n.size, n.nlink) }

  function GetAttr(m: MetaState, inode: nat): Result<Attr, MetaError> {
    if inode in m.nodes then Ok(ToAttr(inode, m.nodes[inode])) else Err(NotFound)
  }

  function LookupName(m: MetaState, parent: nat, name: string): Result<Attr, MetaError> {
    if |name| > NAME_MAX then Err(NameTooLong)
    else if (name, parent) !in m.edges then Err(NotFound)
    else GetAttr(m, m.edges[(name, parent)].child)
  }

  function ReadSlices(m: MetaState, inode: nat, chunk: nat): seq<Slice> {
    if (inode, chunk) in m.chunks then m.chunks[(inode, chunk)] else []
  }

  function InitialLinks(kind: FileType): nat { if kind == Directory then 2 else 1 }

  function Fail(m: MetaState, e: MetaError): Outcome { Outcome(m, Failed(e)) }

  /** Why a new entry (name, parent) is refused. */
  function EntryError(m: MetaState, parent: nat, name: string): Option<MetaError> {
    if parent !in m.nodes then Some(NotFound)
    else if m.nodes[parent].kind != Directory then Some(NotDirectory)
    else if (name, parent) in m.edges then Some(AlreadyExists)
    else None
  }

  function DoCreate(m: MetaState, parent: nat, name: string, kind: FileType): Outcome {
    if |name| > NAME_MAX then Fail(m, NameTooLong)
    else match EntryError(m, parent, name)
      case Some(e) => Fail(m, e)
      case None =>
        var n := Node(kind, 0, InitialLinks(kind));
        var p := m.nodes[parent];
        var p' := p.(nlink := p.nlink + if kind == Directory then 1 else 0);
        Outcome(
          m.(nodes := m.nodes[m.nextInode := n][parent := p'],
             edges := m.edges[(name, parent) := Edge(m.nextInode, kind)],
             nextInode := m.nextInode + 1),
          Found(ToAttr(m.nextInode, n)))
  }

  /** The file-type bits of a mode: the digits above octal 0o7777. */
  function KindOfMode(mode: nat): Option<FileType> {
    match (mode / 0x1000) % 0x10
    case 1 => Some(Fifo)
    case 2 => Some(CharDevice)
    case 6 => Some(BlockDevice)
    case 8 => Some(Regular)
    case 12 => Some(Socket)
    case _ => None
  }

  function DoMknod(m: MetaState, parent: nat, name: string, mode: nat): Outcome {
    match KindOfMode(mode)
    case None => Fail(m, NotSupported)
    case Some(kind) => DoCreate(m, parent, name, kind)
  }

  function DoSymlink(m: MetaState, parent: nat, name: string, target: string): Outcome {
    if |name| > NAME_MAX then Fail(m, NameTooLong)
    else match EntryError(m, parent, name)
      case Some(e) => Fail(m, e)
      case None =>
        var n := Node(FileType.Symlink, |target|, 1);
        Outcome(
          m.(nodes := m.nodes[m.nextInode := n],
             edges := m.edges[(name, parent) := Edge(m.nextInode, FileType.Symlink)],
             symlinks := m.symlinks[m.nextInode := target],
             nextInode := m.nextInode + 1),
          Found(ToAttr(m.nextInode, n)))
  }

  function DoLink(m: MetaState, parent: nat, name: string, inode: nat): Outcome {
    if |name| > NAME_MAX then Fail(m, NameTooLong)
    else if inode !in m.nodes then Fail(m, NotFound)
    else if m.nodes[inode].kind == Directory then Fail(m, PermissionDenied)
    else match EntryError(m, parent, name)
      case Some(e) => Fail(m, e)
      case None =>
        var n := m.nodes[inode].(nlink := m.nodes[inode].nlink + 1);
        Outcome(
          m.(nodes := m.nodes[inode := n],
             edges := m.edges[(name, parent) := Edge(inode, n.kind)]),
          Found(ToAttr(inode, n)))
  }

  predicate HasEntries(edges: Edges, dir: nat) {
    exists k | k in edges :: k.1 == dir
  }

  /** One link fewer, never below zero: `saturating_sub(1)`. Absent nodes are left alone. */
  function LessLink(nodes: Nodes, n: nat): Nodes {
    if n in nodes then nodes[n := nodes[n].(nlink := if nodes[n].nlink == 0 then 0 else nodes[n].nlink - 1)] else nodes
  }

  function MoreLink(nodes: Nodes, n: nat): Nodes {
    if n in nodes then nodes[n := nodes[n].(nlink := nodes[n].nlink + 1)] else nodes
  }

  /** The nodes after the entry `e` of `parent` is gone. */
  function Detach(nodes: Nodes, e: Edge, parent: nat): Nodes {
    var fewer := LessLink(nodes, e.child);
    if e.kind == Directory then LessLink(fewer, parent) else fewer
  }

  function DoUnlink(m: MetaState, parent: nat, name: string): Outcome {
    if |name| > NAME_MAX then Fail(m, NameTooLong)
    else if (name, parent) !in m.edges then Fail(m, NotFound)
    else
      var e := m.edges[(name, parent)];
      if e.kind == Directory && HasEntries(m.edges, e.child) then Fail(m, NotEmpty)
      else if e.child !in m.nodes || parent !in m.nodes then Fail(m, NotFound)
      else
        Outcome(m.(nodes := Detach(m.nodes, e, parent), edges := m.edges - {(name, parent)}), Done)
  }

  /** The nodes after a replaced target is detached and a directory has changed parents. */
  function RenamedNodes(m: MetaState, src: (string, nat), dst: (string, nat)): Nodes
    requires src in m.edges
  {
    var nodes := if dst in m.edges then Detach(m.nodes, m.edges[dst], dst.1) else m.nodes;
    if m.edges[src].kind == Directory && src.1 != dst.1
    then MoreLink(LessLink(nodes, src.1), dst.1)
    else nodes
  }

  function RenamedEdges(edges: Edges, src: (string, nat), dst: (string, nat)): Edges
    requires src in edges
  {
    (edges - {dst} - {src})[dst := edges[src]]
  }

  function DoRename(m: MetaState, srcParent: nat, srcName: string, dstParent: nat, dstName: string): Outcome {
    var src, dst := (srcName, srcParent), (dstName, dstParent);
    if |srcName| > NAME_MAX || |dstName| > NAME_MAX then Fail(m, NameTooLong)
    else if src == dst then Outcome(m, Done)
    else if src !in m.edges then Fail(m, NotFound)
    else Outcome(m.(nodes := RenamedNodes(m, src, dst), edges := RenamedEdges(m.edges, src, dst)), Done)
  }

  function DoForget(m: MetaState, inode: nat): Outcome {
    if inode in m.nodes && m.nodes[inode].nlink == 0 then
      Outcome(
        m.(nodes := m.nodes - {inode},
           chunks := map k | k in m.chunks && k.0 != inode :: m.chunks[k],
           symlinks := m.symlinks - {inode}),
        Done)
    else Outcome(m, Done)
  }

  function DoSetSize(m: MetaState, inode: nat, size: nat): Outcome {
    if inode !in m.nodes then Fail(m, NotFound)
    else
      var n := m.nodes[inode].(size := size);
      Outcome(m.(nodes := m.nodes[inode := n]), Found(ToAttr(inode, n)))
  }

  function DoNextSlice(m: MetaState): Outcome {
    Outcome(m.(nextSlice := m.nextSlice + 1), Id(m.nextSlice))
  }

  function DoWriteSlice(m: MetaState, inode: nat, chunk: nat, slice: Slice): Outcome {
    DoReplaceSlices(m, inode, chunk, ReadSlices(m, inode, chunk) + [slice])
  }

  function DoReplaceSlices(m: MetaState, inode: nat, chunk: nat, slices: seq<Slice>): Outcome {
    Outcome(m.(chunks := m.chunks[(inode, chunk) := slices]), Done)
  }

  function Perform(m: MetaState, op: MetaOp): Outcome {
    match op
    case Create(parent, name, kind) => DoCreate(m, parent, name, kind)
    case Mknod(parent, name, mode) => DoMknod(m, parent, name, mode)
    case Symlink(parent, name, target) => DoSymlink(m, parent, name, target)
    case Link(parent, name, inode) => DoLink(m, parent, name, inode)
    case Unlink(parent, name) => DoUnlink(m, parent, name)
    case Rename(sp, sn, dp, dn) => DoRename(m, sp, sn, dp, dn)
    case Forget(inode) => DoForget(m, inode)
    case SetSize(inode, size) => DoSetSize(m, inode, size)
    case NextSlice => DoNextSlice(m)
    case WriteSlice(inode, chunk, slice) => DoWriteSlice(m, inode, chunk, slice)
    case ReplaceSlices(inode, chunk, slices) => DoReplaceSlices(m, inode, chunk, slices)
  }
}
