/** The redb and the SQLite engine are the same file system under a renaming of numbers. */
module Simulation {
  import opened Types
  import opened MetaModel
  import opened Namespace
  import opened SqliteModel

  /** redb hands out a counter before incrementing it, SQLite after. The root is 1 in both. */
  function Phi(i: nat): nat { if i <= 1 then i else i + 1 }

  function Psi(j: nat): nat { if j <= 1 then j else j - 1 }

  function RenSlice(s: Slice): Slice { s.(id := s.id + 1) }

  function RenSlices(ss: seq<Slice>): (r: seq<Slice>)
    ensures |r| == |ss| && forall i | 0 <= i < |ss| :: r[i] == RenSlice(ss[i])
  {
    seq(|ss|, i requires 0 <= i < |ss| => RenSlice(ss[i]))
  }

  function RenOp(op: MetaOp): MetaOp {
    match op
    case Create(parent, name, kind) => Create(Phi(parent), name, kind)
    case Mknod(parent, name, mode) => Mknod(Phi(parent), name, mode)
    case Symlink(parent, name, target) => MetaOp.Symlink(Phi(parent), name, target)
    case Link(parent, name, inode) => Link(Phi(parent), name, Phi(inode))
    case Unlink(parent, name) => Unlink(Phi(parent), name)
    case Rename(sp, sn, dp, dn) => Rename(Phi(sp), sn, Phi(dp), dn)
    case Forget(inode) => Forget(Phi(inode))
    case SetSize(inode, size) => SetSize(Phi(inode), size)
    case NextSlice => NextSlice
    case WriteSlice(inode, chunk, slice) => WriteSlice(Phi(inode), chunk, RenSlice(slice))
    case ReplaceSlices(inode, chunk, slices) => ReplaceSlices(Phi(inode), chunk, RenSlices(slices))
  }

  function RenReply(r: Reply): Reply {
    match r
    case Found(a) => Found(a.(inode := Phi(a.inode)))
    case Id(s) => Id(s + 1)
    case _ => r
  }

  function ToRow(n: Node): Row { Row(n.kind, n.size, n.nlink) }

  function RenEdge(e: Edge): Edge { e.(child := Phi(e.child)) }

  ghost predicate SameNodes(nodes: Nodes, rows: map<nat, Row>) {
    && (forall i {:trigger Phi(i)} | i in nodes :: Phi(i) in rows && rows[Phi(i)] == ToRow(nodes[i]))
    && (forall j {:trigger Psi(j)} | j in rows :: j != 2 && Psi(j) in nodes)
  }

  ghost predicate SameEdges(edges: Edges, rows: map<(nat, string), Edge>) {
    && (forall k {:trigger Phi(k.1), k.0} | k in edges ::
          (Phi(k.1), k.0) in rows && rows[(Phi(k.1), k.0)] == RenEdge(edges[k]))
    && (forall l {:trigger Psi(l.0), l.1} | l in rows :: l.0 != 2 && (l.1, Psi(l.0)) in edges)
  }

  ghost predicate SameChunks(chunks: map<(nat, nat), seq<Slice>>, rows: map<(nat, nat), seq<Slice>>) {
    && (forall k {:trigger Phi(k.0), k.1} | k in chunks ::
          (Phi(k.0), k.1) in rows && rows[(Phi(k.0), k.1)] == RenSlices(chunks[k]))
    && (forall l {:trigger Psi(l.0), l.1} | l in rows :: l.0 != 2 && (Psi(l.0), l.1) in chunks)
  }

  ghost predicate SameSymlinks(links: map<nat, string>, rows: map<nat, string>) {
    && (forall i {:trigger Phi(i)} | i in links :: Phi(i) in rows && rows[Phi(i)] == links[i])
    && (forall j {:trigger Psi(j)} | j in rows :: j != 2 && Psi(j) in links)
  }

  ghost predicate Same(m: MetaState, q: SqlState) {
    && SameNodes(m.nodes, q.node)
    && SameEdges(m.edges, q.edge)
    && SameChunks(m.chunks, q.chunk)
    && SameSymlinks(m.symlinks, q.symlink)
    && q.nextInode == m.nextInode && q.nextSlice == m.nextSlice
  }

  ghost predicate Agree(m: MetaState, q: SqlState, op: MetaOp) {
    && Same(Perform(m, op).state, SqlPerform(q, RenOp(op)).state)
    && SqlPerform(q, RenOp(op)).reply == RenReply(Perform(m, op).reply)
  }

  lemma PhiInjective(i: nat, j: nat)
    ensures Phi(i) == Phi(j) <==> i == j
    ensures Psi(Phi(i)) == i && Phi(i) != 2
    ensures j != 2 ==> Phi(Psi(j)) == j
  {
  }

  lemma InBoth(m: MetaState, q: SqlState)
    requires Same(m, q)
    ensures forall i: nat :: i in m.nodes <==> Phi(i) in q.node
    ensures forall k: (string, nat) :: k in m.edges <==> (Phi(k.1), k.0) in q.edge
  {
    forall i: nat | Phi(i) in q.node ensures i in m.nodes {
      PhiInjective(i, i);
    }
    forall k: (string, nat) | (Phi(k.1), k.0) in q.edge ensures k in m.edges {
      PhiInjective(k.1, k.1);
      assert (k.0, Psi(Phi(k.1))) in m.edges;
      assert k == (k.0, k.1);
    }
  }

  lemma PutNode(nodes: Nodes, rows: map<nat, Row>, i: nat, n: Node)
    requires SameNodes(nodes, rows)
    ensures SameNodes(nodes[i := n], rows[Phi(i) := ToRow(n)])
  {
    var nodes', rows' := nodes[i := n], rows[Phi(i) := ToRow(n)];
    forall k | k in nodes' ensures Phi(k) in rows' && rows'[Phi(k)] == ToRow(nodes'[k]) {
      PhiInjective(i, k);
    }
    forall j | j in rows' ensures j != 2 && Psi(j) in nodes' {
      PhiInjective(i, i);
      assert j == Phi(i) || j in rows;
    }
  }

  lemma PutEdge(edges: Edges, rows: map<(nat, string), Edge>, k: (string, nat), e: Edge)
    requires SameEdges(edges, rows)
    ensures SameEdges(edges[k := e], rows[(Phi(k.1), k.0) := RenEdge(e)])
  {
    var edges', rows' := edges[k := e], rows[(Phi(k.1), k.0) := RenEdge(e)];
    assert k == (k.0, k.1);
    forall l | l in edges' ensures (Phi(l.1), l.0) in rows' && rows'[(Phi(l.1), l.0)] == RenEdge(edges'[l]) {
      PhiInjective(k.1, l.1);
      assert l == (l.0, l.1);
    }
    forall l | l in rows' ensures l.0 != 2 && (l.1, Psi(l.0)) in edges' {
      if l == (Phi(k.1), k.0) {
        PhiInjective(k.1, k.1);
        assert (l.1, Psi(l.0)) == k;
      } else {
        assert l in rows;
        assert (l.1, Psi(l.0)) in edges;
      }
    }
  }

  lemma DropEdge(edges: Edges, rows: map<(nat, string), Edge>, k: (string, nat))
    requires SameEdges(edges, rows)
    ensures SameEdges(edges - {k}, rows - {(Phi(k.1), k.0)})
  {
    assert k == (k.0, k.1);
    forall l | l in rows - {(Phi(k.1), k.0)} ensures (l.1, Psi(l.0)) in edges - {k} {
      PhiInjective(k.1, l.0);
      assert l == (l.0, l.1);
    }
  }

  lemma FewerLinks(nodes: Nodes, rows: map<nat, Row>, i: nat)
    requires SameNodes(nodes, rows) && i in nodes && nodes[i].nlink >= 1
    ensures SameNodes(LessLink(nodes, i), AddLinks(rows, Phi(i), -1))
  {
    PutNode(nodes, rows, i, nodes[i].(nlink := nodes[i].nlink - 1));
  }

  lemma MoreLinks(nodes: Nodes, rows: map<nat, Row>, i: nat)
    requires SameNodes(nodes, rows) && i in nodes
    ensures SameNodes(MoreLink(nodes, i), AddLinks(rows, Phi(i), 1))
  {
    PutNode(nodes, rows, i, nodes[i].(nlink := nodes[i].nlink + 1));
  }

  lemma DropNode(nodes: Nodes, rows: map<nat, Row>, i: nat)
    requires SameNodes(nodes, rows)
    ensures SameNodes(nodes - {i}, rows - {Phi(i)})
  {
    forall j | j in rows - {Phi(i)} ensures Psi(j) in nodes - {i} {
      PhiInjective(i, j);
    }
    forall k | k in nodes - {i} ensures Phi(k) in rows - {Phi(i)} {
      PhiInjective(i, k);
    }
  }

  lemma PutChunk(chunks: map<(nat, nat), seq<Slice>>, rows: map<(nat, nat), seq<Slice>>, k: (nat, nat), ss: seq<Slice>)
    requires SameChunks(chunks, rows)
    ensures SameChunks(chunks[k := ss], rows[(Phi(k.0), k.1) := RenSlices(ss)])
  {
    hide RenSlices;
    var rows' := rows[(Phi(k.0), k.1) := RenSlices(ss)];
    forall l | l in rows' ensures (Psi(l.0), l.1) in chunks[k := ss] && l.0 != 2 {
      PhiInjective(k.0, l.0);
      assert k == (k.0, k.1);
    }
  }

  lemma PutSymlink(links: map<nat, string>, rows: map<nat, string>, i: nat, target: string)
    requires SameSymlinks(links, rows)
    ensures SameSymlinks(links[i := target], rows[Phi(i) := target])
  {
  }

  /** What corresponding rows say. */
  lemma NodeRow(m: MetaState, q: SqlState, i: nat)
    requires Same(m, q)
    ensures i in m.nodes <==> Phi(i) in q.node
    ensures i in m.nodes ==> q.node[Phi(i)] == ToRow(m.nodes[i])
  {
    InBoth(m, q);
  }

  lemma EdgeRow(m: MetaState, q: SqlState, k: (string, nat))
    requires Same(m, q)
    ensures k in m.edges <==> (Phi(k.1), k.0) in q.edge
    ensures k in m.edges ==> q.edge[(Phi(k.1), k.0)] == RenEdge(m.edges[k])
  {
    InBoth(m, q);
  }

  lemma EntriesAgree(m: MetaState, q: SqlState, dir: nat)
    requires Same(m, q)
    ensures HasEntries(m.edges, dir) <==> SqlHasEntries(q, Phi(dir))
  {
    InBoth(m, q);
    if HasEntries(m.edges, dir) {
      var k :| k in m.edges && k.1 == dir;
      assert (Phi(k.1), k.0) in q.edge;
    }
    if SqlHasEntries(q, Phi(dir)) {
      var l :| l in q.edge && l.0 == Phi(dir);
      PhiInjective(dir, dir);
      assert (l.1, Psi(l.0)) in m.edges;
    }
  }

  lemma EntryErrorsAgree(m: MetaState, q: SqlState, parent: nat, name: string)
    requires Same(m, q)
    ensures SqlEntryError(q, Phi(parent), name) == EntryError(m, parent, name)
  {
    NodeRow(m, q, parent);
    EdgeRow(m, q, (name, parent));
  }

  lemma LookupsAgree(m: MetaState, q: SqlState, k: (string, nat))
    requires Same(m, q) && NsInv(m)
    ensures k !in m.edges ==> LookupRow(q, Phi(k.1), k.0) == None
    ensures k in m.edges ==>
              && LookupRow(q, Phi(k.1), k.0) == Some(Phi(m.edges[k].child))
              && Phi(m.edges[k].child) in q.node
              && m.edges[k].child in m.nodes
              && q.node[Phi(m.edges[k].child)] == ToRow(m.nodes[m.edges[k].child])
              && m.nodes[m.edges[k].child].kind == m.edges[k].kind
  {
    EdgeRow(m, q, k);
    if k in m.edges {
      EntryIsOk(m, k);
      NodeRow(m, q, m.edges[k].child);
    }
  }

  /** A directory lists the same names, kinds and renamed inodes in both engines. */
  lemma ListingsAgree(m: MetaState, q: SqlState, dir: nat, name: string, child: nat, kind: FileType)
    requires Same(m, q)
    ensures (name, dir) in m.edges && m.edges[(name, dir)] == Edge(child, kind) <==>
            (Phi(dir), name) in q.edge && q.edge[(Phi(dir), name)] == Edge(Phi(child), kind)
  {
    var k := (name, dir);
    EdgeRow(m, q, k);
    if k in m.edges {
      PhiInjective(child, m.edges[k].child);
    }
  }

  lemma NextInodeRow(m: MetaState, q: SqlState)
    requires Same(m, q) && NsInv(m)
    ensures q.nextInode + 1 == Phi(m.nextInode) && m.nextInode !in m.nodes
    ensures Phi(m.nextInode) !in q.node && Phi(m.nextInode) !in q.symlink
  {
    hide Forest, LinkCount;
    InBoth(m, q);
    PhiInjective(m.nextInode, m.nextInode);
    assert Psi(Phi(m.nextInode)) !in m.symlinks;
  }

  lemma CreateAgrees(m: MetaState, q: SqlState, parent: nat, name: string, kind: FileType)
    requires Same(m, q) && NsInv(m)
    ensures var r, t := DoCreate(m, parent, name, kind), SqlCreate(q, Phi(parent), name, kind);
            Same(r.state, t.state) && t.reply == RenReply(r.reply)
  {
    hide SameNodes, SameEdges, SameChunks, SameSymlinks, NsInv, SqlEntryError, AddLinks;
    EntryErrorsAgree(m, q, parent, name);
    if |name| <= NAME_MAX && EntryError(m, parent, name).None? {
      NextInodeRow(m, q);
      CreateNodesAgree(m.nodes, q.node, m.nextInode, parent, kind);
      PutEdge(m.edges, q.edge, (name, parent), Edge(m.nextInode, kind));
    }
  }

  lemma CreateNodesAgree(nodes: Nodes, rows: map<nat, Row>, inode: nat, parent: nat, kind: FileType)
    requires SameNodes(nodes, rows) && inode !in nodes && parent in nodes
    ensures var n, p := Node(kind, 0, InitialLinks(kind)), nodes[parent];
            var rows1 := rows[Phi(inode) := Row(kind, 0, InitialLinks(kind))];
            SameNodes(nodes[inode := n][parent := p.(nlink := p.nlink + if kind == Directory then 1 else 0)],
                      if kind == Directory then AddLinks(rows1, Phi(parent), 1) else rows1)
  {
    hide SameNodes;
    var n := Node(kind, 0, InitialLinks(kind));
    var nodes1 := nodes[inode := n];
    PutNode(nodes, rows, inode, n);
    if kind == Directory {
      MoreLinks(nodes1, rows[Phi(inode) := ToRow(n)], parent);
    } else {
      assert nodes1[parent := nodes[parent]] == nodes1;
    }
  }

  lemma SymlinkAgrees(m: MetaState, q: SqlState, parent: nat, name: string, target: string)
    requires Same(m, q) && NsInv(m)
    ensures var r, t := DoSymlink(m, parent, name, target), SqlSymlink(q, Phi(parent), name, target);
            Same(r.state, t.state) && t.reply == RenReply(r.reply)
  {
    EntryErrorsAgree(m, q, parent, name);
    hide SameNodes, SameEdges, SameChunks, SameSymlinks, NsInv, SqlEntryError;
    if |name| <= NAME_MAX && EntryError(m, parent, name).None? {
      NextInodeRow(m, q);
      PutNode(m.nodes, q.node, m.nextInode, Node(FileType.Symlink, |target|, 1));
      PutEdge(m.edges, q.edge, (name, parent), Edge(m.nextInode, FileType.Symlink));
      PutSymlink(m.symlinks, q.symlink, m.nextInode, target);
    }
  }

  lemma LinkAgrees(m: MetaState, q: SqlState, parent: nat, name: string, inode: nat)
    requires Same(m, q)
    ensures var r, t := DoLink(m, parent, name, inode), SqlLink(q, Phi(parent), name, Phi(inode));
            Same(r.state, t.state) && t.reply == RenReply(r.reply)
  {
    NodeRow(m, q, inode);
    EntryErrorsAgree(m, q, parent, name);
    hide SameNodes, SameEdges, SameChunks, SameSymlinks;
    if DoLink(m, parent, name, inode).reply.Found? {
      MoreLinks(m.nodes, q.node, inode);
      PutEdge(m.edges, q.edge, (name, parent), Edge(inode, m.nodes[inode].kind));
    }
  }

  /** Both engines detach an entry alike, because no count is zero when it is lowered. */
  lemma DetachAgrees(m: MetaState, q: SqlState, k: (string, nat))
    requires Same(m, q) && LinksCounted(m) && EntryOk(m.nodes, m.edges, k)
    ensures var e, fewer := m.edges[k], AddLinks(q.node, Phi(m.edges[k].child), -1);
            SameNodes(Detach(m.nodes, e, k.1), if e.kind == Directory then AddLinks(fewer, Phi(k.1), -1) else fewer)
  {
    hide SameNodes, SameEdges, SameChunks, SameSymlinks, Counted;
    DetachCounts(m.nodes, m.edges, k);
    var e := m.edges[k];
    FewerLinks(m.nodes, q.node, e.child);
    if e.kind == Directory {
      FewerLinks(LessLink(m.nodes, e.child), AddLinks(q.node, Phi(e.child), -1), k.1);
    }
  }

  lemma UnlinkAgrees(m: MetaState, q: SqlState, parent: nat, name: string)
    requires Same(m, q) && NsInv(m)
    ensures var r, t := DoUnlink(m, parent, name), SqlUnlink(q, Phi(parent), name);
            Same(r.state, t.state) && t.reply == RenReply(r.reply)
  {
    var k := (name, parent);
    LookupsAgree(m, q, k);
    hide SameNodes, SameEdges, SameChunks, SameSymlinks, NsInv, LinksCounted, HasEntries, SqlHasEntries, LookupRow;
    if k in m.edges {
      EntryIsOk(m, k);
      EntriesAgree(m, q, m.edges[k].child);
      DetachAgrees(m, q, k);
      DropEdge(m.edges, q.edge, k);
    }
  }

  lemma EntryIsOk(m: MetaState, k: (string, nat))
    requires NsInv(m) && k in m.edges
    ensures LinksCounted(m) && EntryOk(m.nodes, m.edges, k)
  {
    hide Forest, Counted;
  }

  lemma ForgetAgrees(m: MetaState, q: SqlState, inode: nat)
    requires Same(m, q)
    ensures var r, t := DoForget(m, inode), SqlForget(q, Phi(inode));
            Same(r.state, t.state) && t.reply == RenReply(r.reply)
  {
    NodeRow(m, q, inode);
    if inode in m.nodes && m.nodes[inode].nlink == 0 {
      DropNode(m.nodes, q.node, inode);
      DropRows(m, q, inode);
    }
  }

  lemma DropRows(m: MetaState, q: SqlState, i: nat)
    requires Same(m, q)
    ensures SameChunks(map k | k in m.chunks && k.0 != i :: m.chunks[k],
                       map k | k in q.chunk && k.0 != Phi(i) :: q.chunk[k])
    ensures SameSymlinks(m.symlinks - {i}, q.symlink - {Phi(i)})
  {
    DropChunks(m.chunks, q.chunk, i);
    forall k | k in m.symlinks - {i} ensures Phi(k) in q.symlink - {Phi(i)} {
      PhiInjective(i, k);
    }
    forall j | j in q.symlink - {Phi(i)} ensures Psi(j) in m.symlinks - {i} {
      PhiInjective(i, j);
    }
  }

  lemma DropChunks(chunks: map<(nat, nat), seq<Slice>>, rows: map<(nat, nat), seq<Slice>>, i: nat)
    requires SameChunks(chunks, rows)
    ensures SameChunks(map k | k in chunks && k.0 != i :: chunks[k], map k | k in rows && k.0 != Phi(i) :: rows[k])
  {
    hide RenSlices;
    forall l | l in rows && l.0 != Phi(i) ensures l.0 != 2 && (Psi(l.0), l.1) in chunks && Psi(l.0) != i {
      assert (Psi(l.0), l.1) in chunks;
      PhiInjective(i, l.0);
    }
    forall k | k in chunks && k.0 != i ensures (Phi(k.0), k.1) in rows && Phi(k.0) != Phi(i) {
      PhiInjective(i, k.0);
    }
  }

  lemma SetSizeAgrees(m: MetaState, q: SqlState, inode: nat, size: nat)
    requires Same(m, q)
    ensures var r, t := DoSetSize(m, inode, size), SqlSetSize(q, Phi(inode), size);
            Same(r.state, t.state) && t.reply == RenReply(r.reply)
  {
    NodeRow(m, q, inode);
    hide SameNodes, SameEdges, SameChunks, SameSymlinks;
    if inode in m.nodes {
      PutNode(m.nodes, q.node, inode, m.nodes[inode].(size := size));
    }
  }

  lemma ReadSlicesAgree(m: MetaState, q: SqlState, inode: nat, chunk: nat)
    requires Same(m, q)
    ensures SqlReadSlices(q, Phi(inode), chunk) == RenSlices(ReadSlices(m, inode, chunk))
  {
    var k := (inode, chunk);
    if (Phi(inode), chunk) in q.chunk {
      PhiInjective(inode, inode);
      assert (Psi((Phi(inode), chunk).0), (Phi(inode), chunk).1) in m.chunks;
    }
    if k in m.chunks {
      assert (Phi(k.0), k.1) in q.chunk;
    }
  }

  lemma ReplaceAgrees(m: MetaState, q: SqlState, inode: nat, chunk: nat, slices: seq<Slice>)
    requires Same(m, q)
    ensures var r := DoReplaceSlices(m, inode, chunk, slices);
            var t := SqlReplaceSlices(q, Phi(inode), chunk, RenSlices(slices));
            Same(r.state, t.state) && t.reply == RenReply(r.reply)
  {
    hide SameNodes, SameEdges, SameChunks, SameSymlinks;
    PutChunk(m.chunks, q.chunk, (inode, chunk), slices);
  }

  // ---- rename ----

  /** Moving an entry onto a free name. */
  lemma MoveAgrees(m: MetaState, q: SqlState, src: (string, nat), dst: (string, nat))
    requires Same(m, q) && LinksCounted(m) && EntryOk(m.nodes, m.edges, src)
    requires src != dst && dst !in m.edges && dst.1 in m.nodes && m.nodes[dst.1].kind == Directory
    ensures (Phi(src.1), src.0) in q.edge
    ensures var isDir := m.edges[src].kind == Directory;
            var t := SqlMove(q, isDir, (Phi(src.1), src.0), (Phi(dst.1), dst.0));
            && Same(m.(nodes := RenamedNodes(m, src, dst), edges := RenamedEdges(m.edges, src, dst)), t.state)
            && t.reply == Done
  {
    EdgeRow(m, q, src);
    EdgeRow(m, q, dst);
    PhiInjective(src.1, dst.1);
    hide SameNodes, SameEdges, SameChunks, SameSymlinks, Counted;
    assert m.edges - {dst} == m.edges;
    DropEdge(m.edges, q.edge, src);
    PutEdge(m.edges - {src}, q.edge - {(Phi(src.1), src.0)}, dst, m.edges[src]);
    MoveCounts(m.nodes, m.edges, src, dst);
    if m.edges[src].kind == Directory && src.1 != dst.1 {
      FewerLinks(m.nodes, q.node, src.1);
      MoreLinks(LessLink(m.nodes, src.1), AddLinks(q.node, Phi(src.1), -1), dst.1);
    }
  }

  /** When both engines do the same on a rename: nothing is replaced, or what is replaced survives
      in both (a file with another link, or an empty directory). */
  predicate SameRename(m: MetaState, srcParent: nat, srcName: string, dstParent: nat, dstName: string) {
    var src, dst := (srcName, srcParent), (dstName, dstParent);
    || |srcName| > NAME_MAX || |dstName| > NAME_MAX
    || src == dst || src !in m.edges || dst !in m.edges
    || (if m.edges[dst].kind == Directory then !HasEntries(m.edges, m.edges[dst].child)
        else m.edges[dst].child in m.nodes && m.nodes[m.edges[dst].child].nlink >= 2)
  }

  lemma RenameOntoFree(m: MetaState, q: SqlState, src: (string, nat), dst: (string, nat))
    requires Same(m, q) && NsInv(m) && Allowed(m, Rename(src.1, src.0, dst.1, dst.0))
    requires |src.0| <= NAME_MAX && |dst.0| <= NAME_MAX
    requires src != dst && src in m.edges && dst !in m.edges
    ensures Agree(m, q, Rename(src.1, src.0, dst.1, dst.0))
  {
    LookupsAgree(m, q, src);
    LookupsAgree(m, q, dst);
    PhiInjective(src.1, dst.1);
    EntryIsOk(m, src);
    hide NsInv, Same, LinksCounted, InSubtree, SqlMove, LookupRow, RenamedNodes, RenamedEdges;
    MoveAgrees(m, q, src, dst);
  }

  /** The state after the target is gone, in both engines, if SQLite keeps its row. */
  lemma DisplaceAgrees(m: MetaState, q: SqlState, dst: (string, nat))
    requires Same(m, q) && NsInv(m) && dst in m.edges
    requires m.edges[dst].kind == Directory || m.nodes[m.edges[dst].child].nlink >= 2
    ensures Phi(m.edges[dst].child) in q.node
    ensures var m1 := m.(nodes := Detach(m.nodes, m.edges[dst], dst.1), edges := m.edges - {dst});
            && Same(m1, SqlDisplace(q, Phi(m.edges[dst].child), (Phi(dst.1), dst.0)))
            && Counted(m1.nodes, m1.edges) && SameButLinks(m.nodes, m1.nodes)
  {
    var e := m.edges[dst];
    EntryIsOk(m, dst);
    NodeRow(m, q, e.child);
    hide NsInv, SameNodes, SameEdges, SameChunks, SameSymlinks, Counted;
    DetachAgrees(m, q, dst);
    DetachCounts(m.nodes, m.edges, dst);
    DropEdge(m.edges, q.edge, dst);
    TargetKeepsLink(m, dst);
    assert AddLinks(q.node, Phi(e.child), -1)[Phi(e.child)].nlink >= 1;
  }

  lemma TargetKeepsLink(m: MetaState, dst: (string, nat))
    requires Counted(m.nodes, m.edges) && EntryOk(m.nodes, m.edges, dst)
    requires m.edges[dst].kind == Directory || m.nodes[m.edges[dst].child].nlink >= 2
    ensures m.nodes[m.edges[dst].child].nlink >= 2
  {
    var n := m.edges[dst].child;
    RemoveEntry(m.edges, dst, n);
    assert m.nodes[n].nlink == LinkCount(m.edges, m.nodes[n].kind, n);
  }

  lemma RenameOntoKept(m: MetaState, q: SqlState, src: (string, nat), dst: (string, nat))
    requires Same(m, q) && NsInv(m) && Allowed(m, Rename(src.1, src.0, dst.1, dst.0))
    requires |src.0| <= NAME_MAX && |dst.0| <= NAME_MAX
    requires src != dst && src in m.edges && dst in m.edges
    requires SameRename(m, src.1, src.0, dst.1, dst.0)
    ensures Agree(m, q, Rename(src.1, src.0, dst.1, dst.0))
  {
    KeptMove(m, q, src, dst);
    SqlRenamedVia(m, q, src, dst);
    RenameIs(m, src, dst);
    RenameOps(m, q, src, dst);
    hide NsInv, Same, Allowed, SqlMove, SqlDisplace, SqlRename, RenamedNodes, RenamedEdges, HasEntries, DoRename, Phi;
    hide Perform, SqlPerform, RenOp, RenReply, LookupRow, SameEdges;
  }

  lemma RenameIs(m: MetaState, src: (string, nat), dst: (string, nat))
    requires |src.0| <= NAME_MAX && |dst.0| <= NAME_MAX && src != dst && src in m.edges
    ensures DoRename(m, src.1, src.0, dst.1, dst.0)
         == Outcome(m.(nodes := RenamedNodes(m, src, dst), edges := RenamedEdges(m.edges, src, dst)), Done)
  {
    assert src == (src.0, src.1) && dst == (dst.0, dst.1);
  }

  lemma RenameOps(m: MetaState, q: SqlState, src: (string, nat), dst: (string, nat))
    ensures var op := Rename(src.1, src.0, dst.1, dst.0);
            && Perform(m, op) == DoRename(m, src.1, src.0, dst.1, dst.0)
            && SqlPerform(q, RenOp(op)) == SqlRename(q, Phi(src.1), src.0, Phi(dst.1), dst.0)
    ensures RenReply(Done) == Done
  {
    hide DoRename, SqlRename, Phi;
  }

  lemma KeptMove(m: MetaState, q: SqlState, src: (string, nat), dst: (string, nat))
    requires Same(m, q) && NsInv(m) && dst.1 in m.nodes && m.nodes[dst.1].kind == Directory
    requires src != dst && src in m.edges && dst in m.edges
    requires m.edges[dst].kind == Directory || m.nodes[m.edges[dst].child].nlink >= 2
    ensures Phi(m.edges[dst].child) in q.node
    ensures var q1 := SqlDisplace(q, Phi(m.edges[dst].child), (Phi(dst.1), dst.0));
            && (Phi(src.1), src.0) in q1.edge
            && var t := SqlMove(q1, m.edges[src].kind == Directory, (Phi(src.1), src.0), (Phi(dst.1), dst.0));
            && Same(m.(nodes := RenamedNodes(m, src, dst), edges := RenamedEdges(m.edges, src, dst)), t.state)
            && t.reply == Done
  {
    var m1 := m.(nodes := Detach(m.nodes, m.edges[dst], dst.1), edges := m.edges - {dst});
    DisplaceAgrees(m, q, dst);
    MovableAfter(m, src, dst);
    hide *;
    MoveAgrees(m1, SqlDisplace(q, Phi(m.edges[dst].child), (Phi(dst.1), dst.0)), src, dst);
    RenamedVia(m, src, dst);
  }

  /** With the target gone the move still has everything it needs. */
  lemma MovableAfter(m: MetaState, src: (string, nat), dst: (string, nat))
    requires NsInv(m) && src != dst && src in m.edges && dst in m.edges
    requires dst.1 in m.nodes && m.nodes[dst.1].kind == Directory
    ensures var m1 := m.(nodes := Detach(m.nodes, m.edges[dst], dst.1), edges := m.edges - {dst});
            && LinksCounted(m1) && EntryOk(m1.nodes, m1.edges, src)
            && dst !in m1.edges && dst.1 in m1.nodes && m1.nodes[dst.1].kind == Directory
            && m1.edges[src] == m.edges[src]
  {
    hide NsInv, LinksCounted, Detach;
    EntryIsOk(m, src);
    EntryIsOk(m, dst);
    DetachedCounts(m, dst);
    EntrySurvives(m.nodes, Detach(m.nodes, m.edges[dst], dst.1), m.edges, src, dst);
  }

  lemma DetachedCounts(m: MetaState, dst: (string, nat))
    requires LinksCounted(m) && EntryOk(m.nodes, m.edges, dst)
    ensures var m1 := m.(nodes := Detach(m.nodes, m.edges[dst], dst.1), edges := m.edges - {dst});
            LinksCounted(m1) && SameButLinks(m.nodes, m1.nodes)
  {
    hide Counted, Detach;
    DetachCounts(m.nodes, m.edges, dst);
  }

  lemma EntrySurvives(nodes: Nodes, nodes': Nodes, edges: Edges, k: (string, nat), gone: (string, nat))
    requires EntryOk(nodes, edges, k) && SameButLinks(nodes, nodes') && k != gone
    ensures EntryOk(nodes', edges - {gone}, k) && (edges - {gone})[k] == edges[k]
  {
  }

  lemma RenamedVia(m: MetaState, src: (string, nat), dst: (string, nat))
    requires src != dst && src in m.edges && dst in m.edges
    ensures var m1 := m.(nodes := Detach(m.nodes, m.edges[dst], dst.1), edges := m.edges - {dst});
            && RenamedNodes(m1, src, dst) == RenamedNodes(m, src, dst)
            && RenamedEdges(m1.edges, src, dst) == RenamedEdges(m.edges, src, dst)
  {
    hide Detach;
    assert m.edges - {dst} - {dst} == m.edges - {dst};
  }

  lemma SqlRenamedVia(m: MetaState, q: SqlState, src: (string, nat), dst: (string, nat))
    requires Same(m, q) && NsInv(m) && src != dst && src in m.edges && dst in m.edges
    requires |src.0| <= NAME_MAX && |dst.0| <= NAME_MAX
    requires m.edges[dst].kind == Directory ==> !HasEntries(m.edges, m.edges[dst].child)
    ensures Phi(m.edges[dst].child) in q.node
    ensures var q1 := SqlDisplace(q, Phi(m.edges[dst].child), (Phi(dst.1), dst.0));
            && (Phi(src.1), src.0) in q1.edge
            && SqlRename(q, Phi(src.1), src.0, Phi(dst.1), dst.0)
               == SqlMove(q1, m.edges[src].kind == Directory, (Phi(src.1), src.0), (Phi(dst.1), dst.0))
  {
    LookupsAgree(m, q, src);
    LookupsAgree(m, q, dst);
    EntriesAgree(m, q, m.edges[dst].child);
    EdgeRow(m, q, src);
    PhiInjective(src.1, dst.1);
    hide NsInv, Same, LookupRow, HasEntries, SqlHasEntries, SqlMove, SqlRename, Phi;
    SqlRenameIs(q, (Phi(src.1), src.0), (Phi(dst.1), dst.0), Phi(m.edges[src].child), Phi(m.edges[dst].child));
  }

  lemma SqlRenameIs(q: SqlState, src: (nat, string), dst: (nat, string), child: nat, target: nat)
    requires |src.1| <= NAME_MAX && |dst.1| <= NAME_MAX && src != dst
    requires LookupRow(q, src.0, src.1) == Some(child) && LookupRow(q, dst.0, dst.1) == Some(target)
    ensures child in q.node && target in q.node
    ensures src in q.edge && src in SqlDisplace(q, target, dst).edge
    ensures SqlRename(q, src.0, src.1, dst.0, dst.1) ==
            if q.node[target].kind == Directory && SqlHasEntries(q, target) then SqlFail(q, NotEmpty)
            else SqlMove(SqlDisplace(q, target, dst), q.node[child].kind == Directory, src, dst)
  {
    hide SqlMove, SqlHasEntries;
    assert src == (src.0, src.1) && dst == (dst.0, dst.1);
  }

  /** The engines part exactly when SQLite refuses a non-empty target or drops the replaced node at once. */
  lemma RenameAgreesIff(m: MetaState, q: SqlState, sp: nat, sn: string, dp: nat, dn: string)
    requires Same(m, q) && NsInv(m) && Allowed(m, Rename(sp, sn, dp, dn))
    ensures Agree(m, q, Rename(sp, sn, dp, dn)) <==> SameRename(m, sp, sn, dp, dn)
  {
    var src, dst := (sn, sp), (dn, dp);
    PhiInjective(sp, dp);
    if |sn| > NAME_MAX || |dn| > NAME_MAX || src == dst {
    } else if src !in m.edges {
      LookupsAgree(m, q, src);
    } else if dst !in m.edges {
      RenameOntoFree(m, q, src, dst);
    } else if SameRename(m, sp, sn, dp, dn) {
      RenameOntoKept(m, q, src, dst);
    } else {
      RenameDiffers(m, q, src, dst);
    }
  }

  lemma RenameDiffers(m: MetaState, q: SqlState, src: (string, nat), dst: (string, nat))
    requires Same(m, q) && NsInv(m) && Allowed(m, Rename(src.1, src.0, dst.1, dst.0))
    requires |src.0| <= NAME_MAX && |dst.0| <= NAME_MAX
    requires src != dst && src in m.edges && dst in m.edges && !SameRename(m, src.1, src.0, dst.1, dst.0)
    ensures !Agree(m, q, Rename(src.1, src.0, dst.1, dst.0))
  {
    EntryIsOk(m, dst);
    RenameOps(m, q, src, dst);
    RenameIs(m, src, dst);
    hide NsInv, Same, Allowed, DoRename, SqlRename, RenamedNodes, RenamedEdges, HasEntries, LinksCounted;
    hide Perform, SqlPerform, RenOp, RenReply, Phi;
    if m.edges[dst].kind == Directory {
      SqlRefuses(m, q, src, dst);
    } else {
      RenameDropsTarget(m, q, src, dst);
    }
  }

  lemma SqlRefuses(m: MetaState, q: SqlState, src: (string, nat), dst: (string, nat))
    requires Same(m, q) && NsInv(m) && src != dst && src in m.edges && dst in m.edges
    requires |src.0| <= NAME_MAX && |dst.0| <= NAME_MAX
    requires m.edges[dst].kind == Directory && HasEntries(m.edges, m.edges[dst].child)
    ensures SqlRename(q, Phi(src.1), src.0, Phi(dst.1), dst.0) == SqlFail(q, NotEmpty)
  {
    LookupsAgree(m, q, src);
    LookupsAgree(m, q, dst);
    EntriesAgree(m, q, m.edges[dst].child);
    PhiInjective(src.1, dst.1);
    hide NsInv, Same, LookupRow, HasEntries, SqlHasEntries, SqlMove, SqlDisplace, SqlRename, Phi;
    SqlRenameIs(q, (Phi(src.1), src.0), (Phi(dst.1), dst.0), Phi(m.edges[src].child), Phi(m.edges[dst].child));
  }

  lemma RenameDropsTarget(m: MetaState, q: SqlState, src: (string, nat), dst: (string, nat))
    requires Same(m, q) && NsInv(m) && Allowed(m, Rename(src.1, src.0, dst.1, dst.0))
    requires |src.0| <= NAME_MAX && |dst.0| <= NAME_MAX
    requires src != dst && src in m.edges && dst in m.edges
    requires m.edges[dst].kind != Directory && m.nodes[m.edges[dst].child].nlink <= 1
    ensures !Same(DoRename(m, src.1, src.0, dst.1, dst.0).state,
                  SqlRename(q, Phi(src.1), src.0, Phi(dst.1), dst.0).state)
  {
    var target := m.edges[dst].child;
    var m' := DoRename(m, src.1, src.0, dst.1, dst.0).state;
    var q' := SqlRename(q, Phi(src.1), src.0, Phi(dst.1), dst.0).state;
    SqlRenamedVia(m, q, src, dst);
    EntryIsOk(m, dst);
    NodeRow(m, q, target);
    DroppedRow(q, Phi(target), m.edges[src].kind == Directory, (Phi(src.1), src.0), (Phi(dst.1), dst.0));
    RenameKeepsNode(m, src, dst, target);
    hide *;
    if Same(m', q') {
      NodeRow(m', q', target);
    }
  }

  lemma DroppedRow(q: SqlState, target: nat, isDir: bool, src: (nat, string), dst: (nat, string))
    requires target in q.node && q.node[target].nlink <= 1 && q.node[target].kind != Directory
    requires src in q.edge && src != dst
    ensures target !in SqlMove(SqlDisplace(q, target, dst), isDir, src, dst).state.node
  {
  }

  lemma RenameKeepsNode(m: MetaState, src: (string, nat), dst: (string, nat), n: nat)
    requires n in m.nodes
    ensures n in DoRename(m, src.1, src.0, dst.1, dst.0).state.nodes
  {
    hide RenamedNodes;
    if src in m.edges {
      assert src == (src.0, src.1) && dst == (dst.0, dst.1);
      RenamedKinds(m, src, dst);
    }
  }

  // ---- every operation, every run ----

  lemma StepAgrees(m: MetaState, q: SqlState, op: MetaOp)
    requires Same(m, q) && NsInv(m) && Allowed(m, op)
    requires op.Rename? ==> SameRename(m, op.srcParent, op.srcName, op.dstParent, op.dstName)
    ensures Agree(m, q, op)
  {
    hide NsInv, Same, SameRename;
    match op
    case Create(parent, name, kind) => CreateAgrees(m, q, parent, name, kind);
    case Mknod(parent, name, mode) =>
      if KindOfMode(mode).Some? {
        CreateAgrees(m, q, parent, name, KindOfMode(mode).value);
      }
    case Symlink(parent, name, target) => SymlinkAgrees(m, q, parent, name, target);
    case Link(parent, name, inode) => LinkAgrees(m, q, parent, name, inode);
    case Unlink(parent, name) => UnlinkAgrees(m, q, parent, name);
    case Rename(sp, sn, dp, dn) => RenameAgreesIff(m, q, sp, sn, dp, dn);
    case Forget(inode) => ForgetAgrees(m, q, inode);
    case SetSize(inode, size) => SetSizeAgrees(m, q, inode, size);
    case NextSlice => NextSliceAgrees(m, q);
    case WriteSlice(inode, chunk, slice) =>
      ReadSlicesAgree(m, q, inode, chunk);
      var row := ReadSlices(m, inode, chunk);
      assert RenSlices(row + [slice]) == RenSlices(row) + [RenSlice(slice)];
      ReplaceAgrees(m, q, inode, chunk, row + [slice]);
    case ReplaceSlices(inode, chunk, slices) => ReplaceAgrees(m, q, inode, chunk, slices);
  }

  lemma NextSliceAgrees(m: MetaState, q: SqlState)
    requires Same(m, q)
    ensures Agree(m, q, NextSlice)
  {
    hide SameNodes, SameEdges, SameChunks, SameSymlinks;
  }

  function RunSql(q: SqlState, ops: seq<MetaOp>): SqlState
    decreases |ops|
  {
    if ops == [] then q else RunSql(SqlPerform(q, RenOp(ops[0])).state, ops[1..])
  }

  function Replies(m: MetaState, ops: seq<MetaOp>): seq<Reply>
    decreases |ops|
  {
    if ops == [] then [] else [RenReply(Perform(m, ops[0]).reply)] + Replies(Perform(m, ops[0]).state, ops[1..])
  }

  function SqlReplies(q: SqlState, ops: seq<MetaOp>): seq<Reply>
    decreases |ops|
  {
    if ops == [] then []
    else [SqlPerform(q, RenOp(ops[0])).reply] + SqlReplies(SqlPerform(q, RenOp(ops[0])).state, ops[1..])
  }

  ghost predicate AllSameRename(m: MetaState, ops: seq<MetaOp>)
    decreases |ops|
  {
    ops == [] ||
    (var op := ops[0];
     && (op.Rename? ==> SameRename(m, op.srcParent, op.srcName, op.dstParent, op.dstName))
     && AllSameRename(Perform(m, op).state, ops[1..]))
  }

  lemma InitialSame()
    ensures Same(INITIAL, SQL_INITIAL)
  {
  }

  /** Any sequence of operations gets the same replies and ends in the same tables, up to the renaming. */
  lemma {:induction false} EnginesSimulate(m: MetaState, q: SqlState, ops: seq<MetaOp>)
    requires Same(m, q) && NsInv(m) && AllAllowed(m, ops) && AllSameRename(m, ops)
    ensures Same(RunOps(m, ops), RunSql(q, ops))
    ensures SqlReplies(q, ops) == Replies(m, ops)
    decreases |ops|
  {
    hide NsInv, Same, Perform, SqlPerform, RenOp, RenReply, Allowed;
    if ops == [] {
    } else {
      StepAgrees(m, q, ops[0]);
      PerformKeepsInv(m, ops[0]);
      EnginesSimulate(Perform(m, ops[0]).state, SqlPerform(q, RenOp(ops[0])).state, ops[1..]);
    }
  }
}
