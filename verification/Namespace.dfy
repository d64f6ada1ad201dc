/** Link counts, dangling entries and the shape of the directory graph, over all reachable tables. */
module Namespace {
  import opened Types
  import opened MetaModel

  // ---- counting entries ----

  ghost function EntriesOf(edges: Edges, n: nat): set<(string, nat)> {
    set k | k in edges && edges[k].child == n
  }

  ghost function SubDirs(edges: Edges, p: nat): set<(string, nat)> {
    set k | k in edges && k.1 == p && edges[k].kind == Directory
  }

  /** What `nlink` must be. The root counts one entry it does not have. */
  ghost function LinkCount(edges: Edges, kind: FileType, n: nat): nat {
    if kind != Directory then |EntriesOf(edges, n)|
    else 1 + |EntriesOf(edges, n)| + |SubDirs(edges, n)| + (if n == ROOT_INODE then 1 else 0)
  }

  function Bit(b: bool): nat { if b then 1 else 0 }

  lemma AddEntry(edges: Edges, k: (string, nat), e: Edge, n: nat)
    requires k !in edges
    ensures |EntriesOf(edges[k := e], n)| == |EntriesOf(edges, n)| + Bit(e.child == n)
    ensures |SubDirs(edges[k := e], n)| == |SubDirs(edges, n)| + Bit(e.kind == Directory && k.1 == n)
  {
    AddNamed(edges, k, e, n);
    AddSubDir(edges, k, e, n);
  }

  lemma AddNamed(edges: Edges, k: (string, nat), e: Edge, n: nat)
    requires k !in edges
    ensures |EntriesOf(edges[k := e], n)| == |EntriesOf(edges, n)| + Bit(e.child == n)
  {
    var before, after := EntriesOf(edges, n), EntriesOf(edges[k := e], n);
    if e.child == n {
      assert after == before + {k};
    } else {
      assert after == before;
    }
  }

  lemma AddSubDir(edges: Edges, k: (string, nat), e: Edge, n: nat)
    requires k !in edges
    ensures |SubDirs(edges[k := e], n)| == |SubDirs(edges, n)| + Bit(e.kind == Directory && k.1 == n)
  {
    var before, after := SubDirs(edges, n), SubDirs(edges[k := e], n);
    if e.kind == Directory && k.1 == n {
      assert after == before + {k};
    } else {
      assert after == before;
    }
  }

  lemma RemoveEntry(edges: Edges, k: (string, nat), n: nat)
    requires k in edges
    ensures |EntriesOf(edges - {k}, n)| == |EntriesOf(edges, n)| - Bit(edges[k].child == n)
    ensures |SubDirs(edges - {k}, n)| == |SubDirs(edges, n)| - Bit(edges[k].kind == Directory && k.1 == n)
  {
    assert (edges - {k})[k := edges[k]] == edges;
    AddEntry(edges - {k}, k, edges[k], n);
  }

  // ---- the invariant ----

  ghost predicate Counted(nodes: Nodes, edges: Edges) {
    forall n | n in nodes :: nodes[n].nlink == LinkCount(edges, nodes[n].kind, n)
  }

  ghost predicate LinksCounted(m: MetaState) {
    Counted(m.nodes, m.edges)
  }

  /** Every entry sits in a directory and names a node of the recorded kind; nothing names the root. */
  ghost predicate NoDangling(m: MetaState) {
    && ROOT_INODE in m.nodes && m.nodes[ROOT_INODE].kind == Directory
    && forall k | k in m.edges ::
         && k.1 in m.nodes && m.nodes[k.1].kind == Directory
         && m.edges[k].child in m.nodes && m.nodes[m.edges[k].child].kind == m.edges[k].kind
         && m.edges[k].child != ROOT_INODE
  }

  ghost predicate SingleParent(edges: Edges) {
    forall k, l | k in edges && l in edges && edges[k].kind == Directory && edges[k].child == edges[l].child :: k == l
  }

  /** Chunk and symlink rows belong to nodes, and inode numbers are issued once. */
  ghost predicate RowsOwned(m: MetaState) {
    && (forall n | n in m.nodes :: n < m.nextInode)
    && (forall k | k in m.chunks :: k.0 in m.nodes)
    && (forall n | n in m.symlinks :: n in m.nodes && m.nodes[n].kind == FileType.Symlink)
  }

  /** Every symlink has its target. */
  ghost predicate TargetsStored(m: MetaState) {
    forall n | n in m.nodes && m.nodes[n].kind == FileType.Symlink :: n in m.symlinks
  }

  /** Directory entries lead from lower to higher ranks. */
  ghost predicate Ranked(edges: Edges, rank: nat -> nat) {
    forall k | k in edges && edges[k].kind == Directory :: rank(k.1) < rank(edges[k].child)
  }

  ghost predicate Forest(edges: Edges) {
    SingleParent(edges) && exists rank: nat -> nat :: Ranked(edges, rank)
  }

  ghost predicate NsInv(m: MetaState) {
    NoDangling(m) && LinksCounted(m) && RowsOwned(m) && Forest(m.edges)
  }

  // ---- paths ----

  ghost predicate ChildDir(edges: Edges, p: nat, c: nat) {
    exists k | k in edges :: k.1 == p && edges[k].child == c && edges[k].kind == Directory
  }

  /** A walk down the directory tree. */
  ghost predicate IsPath(edges: Edges, path: seq<nat>) {
    path != [] && forall i | 0 <= i < |path| - 1 :: ChildDir(edges, path[i], path[i + 1])
  }

  ghost predicate InSubtree(edges: Edges, top: nat, n: nat) {
    exists path :: IsPath(edges, path) && path[0] == top && path[|path| - 1] == n
  }

  lemma SubtreeClosed(edges: Edges, top: nat, n: nat, c: nat)
    requires InSubtree(edges, top, n) && ChildDir(edges, n, c)
    ensures InSubtree(edges, top, c)
  {
    var path :| IsPath(edges, path) && path[0] == top && path[|path| - 1] == n;
    var longer := path + [c];
    assert IsPath(edges, longer) && longer[0] == top && longer[|longer| - 1] == c;
  }

  lemma TopInSubtree(edges: Edges, top: nat)
    ensures InSubtree(edges, top, top)
  {
    assert IsPath(edges, [top]);
  }

  lemma {:induction false} RankGrows(edges: Edges, rank: nat -> nat, path: seq<nat>, i: nat, j: nat)
    requires Ranked(edges, rank) && IsPath(edges, path) && i < j < |path|
    ensures rank(path[i]) < rank(path[j])
    decreases j - i
  {
    if i + 1 < j {
      RankGrows(edges, rank, path, i, j - 1);
    }
    assert ChildDir(edges, path[j - 1], path[j - 1 + 1]);
  }

  /** Walking down, or up by the same steps, never comes back to where it started. */
  lemma ForestHasNoCycle(edges: Edges, path: seq<nat>)
    requires Forest(edges) && IsPath(edges, path) && |path| > 1
    ensures path[0] != path[|path| - 1]
  {
    var rank: nat -> nat :| Ranked(edges, rank);
    RankGrows(edges, rank, path, 0, |path| - 1);
  }

  /** The entry's directory and the node it names are there, and of the right kinds. */
  predicate EntryOk(nodes: Nodes, edges: Edges, k: (string, nat)) {
    && k in edges && k.1 in nodes && nodes[k.1].kind == Directory
    && edges[k].child in nodes && nodes[edges[k].child].kind == edges[k].kind
  }

  // ---- what the callers guarantee ----

  /** A rename that gets as far as changing the tables. */
  predicate Renames(m: MetaState, srcParent: nat, srcName: string, dstParent: nat, dstName: string) {
    && DoRename(m, srcParent, srcName, dstParent, dstName).reply.Done?
    && (srcName, srcParent) != (dstName, dstParent)
  }

  /** The kernel's part of the contract: a rename goes to an existing directory outside the moved one;
      and slices are written to existing inodes. */
  ghost predicate Allowed(m: MetaState, op: MetaOp) {
    match op
    case Rename(sp, sn, dp, dn) =>
      Renames(m, sp, sn, dp, dn) ==>
        && dp in m.nodes && m.nodes[dp].kind == Directory
        && (m.edges[(sn, sp)].kind == Directory ==> !InSubtree(m.edges, m.edges[(sn, sp)].child, dp))
    case WriteSlice(inode, _, _) => inode in m.nodes
    case ReplaceSlices(inode, _, _) => inode in m.nodes
    case _ => true
  }

  // ---- create, symlink, link ----

  /** A new entry for a node that has none yet, or for a non-directory. */
  lemma AttachKeepsForest(edges: Edges, k: (string, nat), e: Edge)
    requires Forest(edges) && k !in edges
    requires e.kind == Directory ==> k.1 != e.child
    requires forall l | l in edges && edges[l].child == e.child :: e.kind != Directory && edges[l].kind != Directory
    requires e.kind == Directory ==> forall l | l in edges :: l.1 != e.child
    ensures Forest(edges[k := e])
  {
    var rank: nat -> nat :| Ranked(edges, rank);
    var rank' := (n: nat) => if n == e.child && e.kind == Directory then rank(k.1) + 1 else rank(n);
    assert Ranked(edges[k := e], rank');
  }

  /** A new entry raises the count of what it names, and of its directory if it names a directory. */
  lemma AttachKeepsLinks(m: MetaState, m': MetaState, k: (string, nat), e: Edge)
    requires LinksCounted(m) && k !in m.edges && m'.edges == m.edges[k := e]
    requires forall n | n in m'.nodes ::
               if n in m.nodes then
                 && m'.nodes[n].kind == m.nodes[n].kind
                 && m'.nodes[n].nlink == m.nodes[n].nlink + Bit(e.child == n) + Bit(e.kind == Directory && k.1 == n)
               else
                 && EntriesOf(m.edges, n) == SubDirs(m.edges, n) == {} && n != ROOT_INODE
                 && e.child == n && k.1 != n
                 && m'.nodes[n].nlink == InitialLinks(m'.nodes[n].kind)
    requires e.kind == Directory ==> k.1 in m'.nodes ==> m'.nodes[k.1].kind == Directory
    ensures LinksCounted(m')
  {
    hide EntriesOf, SubDirs;
    forall n | n in m'.nodes ensures m'.nodes[n].nlink == LinkCount(m'.edges, m'.nodes[n].kind, n) {
      AddEntry(m.edges, k, e, n);
    }
  }

  lemma NewNodeUnnamed(m: MetaState)
    requires NsInv(m)
    ensures m.nextInode !in m.nodes && m.nextInode != ROOT_INODE
    ensures EntriesOf(m.edges, m.nextInode) == SubDirs(m.edges, m.nextInode) == {}
    ensures forall k | k in m.edges :: k.1 != m.nextInode && m.edges[k].child != m.nextInode
  {
    hide LinkCount, Forest;
  }

  lemma CreateKeepsInv(m: MetaState, parent: nat, name: string, kind: FileType)
    requires NsInv(m)
    ensures NsInv(DoCreate(m, parent, name, kind).state)
  {
    hide Forest, LinkCount, LinksCounted, EntriesOf, SubDirs, RowsOwned;
    var m' := DoCreate(m, parent, name, kind).state;
    if DoCreate(m, parent, name, kind).reply.Found? {
      var k, e := (name, parent), Edge(m.nextInode, kind);
      NewNodeUnnamed(m);
      AttachKeepsForest(m.edges, k, e);
      AttachKeepsLinks(m, m', k, e);
      AttachKeepsDangling(m, m', k, e);
      CreateKeepsRows(m, parent, name, kind);
    }
  }

  lemma AttachKeepsDangling(m: MetaState, m': MetaState, k: (string, nat), e: Edge)
    requires NoDangling(m) && m'.edges == m.edges[k := e]
    requires forall n | n in m.nodes :: n in m'.nodes && m'.nodes[n].kind == m.nodes[n].kind
    requires EntryOk(m'.nodes, m'.edges, k) && e.child != ROOT_INODE
    ensures NoDangling(m')
  {
  }

  lemma CreateKeepsRows(m: MetaState, parent: nat, name: string, kind: FileType)
    requires RowsOwned(m)
    ensures RowsOwned(DoCreate(m, parent, name, kind).state)
  {
  }

  lemma SymlinkKeepsInv(m: MetaState, parent: nat, name: string, target: string)
    requires NsInv(m)
    ensures NsInv(DoSymlink(m, parent, name, target).state)
  {
    hide Forest, LinkCount, LinksCounted, EntriesOf, SubDirs;
    var m' := DoSymlink(m, parent, name, target).state;
    if DoSymlink(m, parent, name, target).reply.Found? {
      var k, e := (name, parent), Edge(m.nextInode, FileType.Symlink);
      NewNodeUnnamed(m);
      AttachKeepsForest(m.edges, k, e);
      AttachKeepsLinks(m, m', k, e);
      AttachKeepsDangling(m, m', k, e);
    }
  }

  lemma LinkKeepsInv(m: MetaState, parent: nat, name: string, inode: nat)
    requires NsInv(m)
    ensures NsInv(DoLink(m, parent, name, inode).state)
  {
    hide Forest, LinkCount, LinksCounted, EntriesOf, SubDirs;
    var m' := DoLink(m, parent, name, inode).state;
    if DoLink(m, parent, name, inode).reply.Found? {
      var k, e := (name, parent), Edge(inode, m.nodes[inode].kind);
      AttachKeepsForest(m.edges, k, e);
      AttachKeepsLinks(m, m', k, e);
      AttachKeepsDangling(m, m', k, e);
    }
  }

  // ---- unlink and rename ----

  predicate SameButLinks(nodes: Nodes, nodes': Nodes) {
    nodes'.Keys == nodes.Keys &&
    forall n | n in nodes :: nodes'[n].kind == nodes[n].kind && nodes'[n].size == nodes[n].size
  }

  /** Removing an entry lowers the counts it raised, and no subtraction saturates on the way. */
  lemma DetachCounts(nodes: Nodes, edges: Edges, k: (string, nat))
    requires Counted(nodes, edges) && EntryOk(nodes, edges, k)
    ensures Counted(Detach(nodes, edges[k], k.1), edges - {k})
    ensures SameButLinks(nodes, Detach(nodes, edges[k], k.1))
    ensures nodes[edges[k].child].nlink >= 1
    ensures edges[k].kind == Directory ==> LessLink(nodes, edges[k].child)[k.1].nlink >= 1
  {
    hide EntriesOf, SubDirs;
    var nodes' := Detach(nodes, edges[k], k.1);
    forall n | n in nodes'
      ensures nodes'[n].nlink == LinkCount(edges - {k}, nodes'[n].kind, n)
    {
      RemoveEntry(edges, k, n);
      assert nodes[n].nlink == LinkCount(edges, nodes[n].kind, n);
    }
    RemoveEntry(edges, k, edges[k].child);
    RemoveEntry(edges, k, k.1);
  }

  /** Moving an entry between directories carries one count along if it names a directory. */
  lemma MoveCounts(nodes: Nodes, edges: Edges, src: (string, nat), dst: (string, nat))
    requires Counted(nodes, edges) && EntryOk(nodes, edges, src) && dst !in edges
    requires dst.1 in nodes && nodes[dst.1].kind == Directory
    ensures var moves := edges[src].kind == Directory && src.1 != dst.1;
            var nodes' := if moves then MoreLink(LessLink(nodes, src.1), dst.1) else nodes;
            && Counted(nodes', (edges - {src})[dst := edges[src]])
            && SameButLinks(nodes, nodes')
            && (moves ==> nodes[src.1].nlink >= 1)
  {
    hide EntriesOf, SubDirs;
    var moves := edges[src].kind == Directory && src.1 != dst.1;
    var nodes' := if moves then MoreLink(LessLink(nodes, src.1), dst.1) else nodes;
    var edges' := (edges - {src})[dst := edges[src]];
    forall n | n in nodes' ensures nodes'[n].nlink == LinkCount(edges', nodes'[n].kind, n) {
      RemoveEntry(edges, src, n);
      AddEntry(edges - {src}, dst, edges[src], n);
      assert nodes[n].nlink == LinkCount(edges, nodes[n].kind, n);
    }
    RemoveEntry(edges, src, src.1);
  }

  lemma FewerEdgesForest(edges: Edges, gone: set<(string, nat)>)
    requires Forest(edges)
    ensures Forest(edges - gone)
  {
    var rank: nat -> nat :| Ranked(edges, rank);
    assert Ranked(edges - gone, rank);
  }

  lemma UnlinkKeepsInv(m: MetaState, parent: nat, name: string)
    requires NsInv(m)
    ensures NsInv(DoUnlink(m, parent, name).state)
  {
    hide Forest, Counted;
    if DoUnlink(m, parent, name).reply.Done? {
      DetachCounts(m.nodes, m.edges, (name, parent));
      FewerEdgesForest(m.edges, {(name, parent)});
    }
  }

  /** A rename moves a directory, its whole subtree included, below another directory. */
  lemma MoveKeepsForest(edges: Edges, src: (string, nat), dst: (string, nat))
    requires Forest(edges) && src in edges && src != dst
    requires edges[src].kind == Directory ==> !InSubtree(edges, edges[src].child, dst.1)
    ensures Forest(RenamedEdges(edges, src, dst))
  {
    var edges' := RenamedEdges(edges, src, dst);
    var rank: nat -> nat :| Ranked(edges, rank);
    if edges[src].kind == Directory {
      var top, lift := edges[src].child, rank(dst.1) + 1;
      var rank' := n => if InSubtree(edges, top, n) then rank(n) + lift else rank(n);
      forall k | k in edges' && edges'[k].kind == Directory ensures rank'(k.1) < rank'(edges'[k].child) {
        if k == dst {
          TopInSubtree(edges, top);
        } else {
          assert ChildDir(edges, k.1, edges[k].child);
          if InSubtree(edges, top, k.1) {
            SubtreeClosed(edges, top, k.1, edges[k].child);
          }
        }
      }
      assert Ranked(edges', rank');
    } else {
      assert Ranked(edges', rank);
    }
    MoveKeepsSingleParent(edges, src, dst);
  }

  lemma MoveKeepsSingleParent(edges: Edges, src: (string, nat), dst: (string, nat))
    requires SingleParent(edges) && src in edges
    ensures SingleParent(RenamedEdges(edges, src, dst))
  {
  }

  /** A rename keeps the invariant exactly if its destination is a directory outside the moved one. */
  lemma RenameKeepsInv(m: MetaState, srcParent: nat, srcName: string, dstParent: nat, dstName: string)
    requires NsInv(m)
    ensures NsInv(DoRename(m, srcParent, srcName, dstParent, dstName).state) <==>
            Allowed(m, Rename(srcParent, srcName, dstParent, dstName))
  {
    hide Forest, Counted, InSubtree;
    var src, dst := (srcName, srcParent), (dstName, dstParent);
    if !Allowed(m, Rename(srcParent, srcName, dstParent, dstName)) {
      BadRenameBreaks(m, srcParent, srcName, dstParent, dstName);
    } else if Renames(m, srcParent, srcName, dstParent, dstName) {
      RenameCounts(m, src, dst);
      MoveKeepsForest(m.edges, src, dst);
    }
  }

  /** All the aliasing cases of a rename at once, with no saturation in any of them. */
  lemma RenameCounts(m: MetaState, src: (string, nat), dst: (string, nat))
    requires NoDangling(m) && LinksCounted(m)
    requires src in m.edges && src != dst && dst.1 in m.nodes && m.nodes[dst.1].kind == Directory
    ensures Counted(RenamedNodes(m, src, dst), RenamedEdges(m.edges, src, dst))
    ensures SameButLinks(m.nodes, RenamedNodes(m, src, dst))
    ensures dst in m.edges ==>
              && m.nodes[m.edges[dst].child].nlink >= 1
              && (m.edges[dst].kind == Directory ==> LessLink(m.nodes, m.edges[dst].child)[dst.1].nlink >= 1)
    ensures m.edges[src].kind == Directory && src.1 != dst.1 ==>
              (if dst in m.edges then Detach(m.nodes, m.edges[dst], dst.1) else m.nodes)[src.1].nlink >= 1
  {
    hide Counted;
    if dst in m.edges {
      DetachCounts(m.nodes, m.edges, dst);
      MoveCounts(Detach(m.nodes, m.edges[dst], dst.1), m.edges - {dst}, src, dst);
    } else {
      assert m.edges - {dst} == m.edges;
      MoveCounts(m.nodes, m.edges, src, dst);
    }
  }

  /** The precondition on renames is exact: without it, and only without it, a cycle appears. */
  lemma RenameForestIff(m: MetaState, src: (string, nat), dst: (string, nat))
    requires Forest(m.edges) && src in m.edges && src != dst && m.edges[src].kind == Directory
    ensures Forest(RenamedEdges(m.edges, src, dst)) <==> !InSubtree(m.edges, m.edges[src].child, dst.1)
  {
    if InSubtree(m.edges, m.edges[src].child, dst.1) {
      var cycle := RenameMakesCycle(m.edges, src, dst);
      if Forest(RenamedEdges(m.edges, src, dst)) {
        ForestHasNoCycle(RenamedEdges(m.edges, src, dst), cycle);
      }
    } else {
      MoveKeepsForest(m.edges, src, dst);
    }
  }

  lemma RenameMakesCycle(edges: Edges, src: (string, nat), dst: (string, nat)) returns (cycle: seq<nat>)
    requires Forest(edges) && src in edges && src != dst && edges[src].kind == Directory
    requires InSubtree(edges, edges[src].child, dst.1)
    ensures IsPath(RenamedEdges(edges, src, dst), cycle) && |cycle| > 1 && cycle[0] == cycle[|cycle| - 1]
  {
    var edges' := RenamedEdges(edges, src, dst);
    var rank: nat -> nat :| Ranked(edges, rank);
    var top := edges[src].child;
    var path :| IsPath(edges, path) && path[0] == top && path[|path| - 1] == dst.1;
    cycle := path + [top];
    forall i | 0 <= i < |cycle| - 1 ensures ChildDir(edges', cycle[i], cycle[i + 1]) {
      if i == |path| - 1 {
        assert edges'[dst].child == top && dst.1 == cycle[i];
      } else {
        assert ChildDir(edges, path[i], path[i + 1]);
        var k :| k in edges && k.1 == path[i] && edges[k].child == path[i + 1] && edges[k].kind == Directory;
        RankGrows(edges, rank, path, 0, i + 1);
        RankGrows(edges, rank, path, i, |path| - 1);
        assert k != src && k != dst;
        assert k in edges' && edges'[k] == edges[k];
      }
    }
  }

  // ---- forget and the data operations ----

  /** A node is dropped exactly when it is no directory and nothing names it. */
  lemma ForgetExactly(m: MetaState, inode: nat)
    requires NsInv(m) && inode in m.nodes
    ensures var m' := DoForget(m, inode).state;
            && (inode !in m'.nodes <==>
                  m.nodes[inode].kind != Directory && forall k | k in m.edges :: m.edges[k].child != inode)
            && (inode in m'.nodes ==> m' == m)
            && (inode !in m'.nodes ==>
                  && m'.nodes == m.nodes - {inode} && m'.edges == m.edges && m'.symlinks == m.symlinks - {inode}
                  && m'.nextInode == m.nextInode && m'.nextSlice == m.nextSlice
                  && forall k :: k in m'.chunks <==> k in m.chunks && k.0 != inode)
            && forall k | k in m'.chunks :: m'.chunks[k] == m.chunks[k]
  {
    hide Forest;
    var named := EntriesOf(m.edges, inode);
    assert m.nodes[inode].nlink == LinkCount(m.edges, m.nodes[inode].kind, inode);
    if k :| k in m.edges && m.edges[k].child == inode {
      assert k in named;
    } else {
      assert named == {};
    }
  }

  lemma ForgetKeepsInv(m: MetaState, inode: nat)
    requires NsInv(m)
    ensures NsInv(DoForget(m, inode).state)
  {
    hide Forest, LinkCount;
    if inode in m.nodes {
      ForgetExactly(m, inode);
    }
  }

  lemma SetSizeKeepsInv(m: MetaState, inode: nat, size: nat)
    requires NsInv(m)
    ensures NsInv(DoSetSize(m, inode, size).state)
  {
    hide Forest, LinkCount;
  }

  lemma ChunksKeepInv(m: MetaState, inode: nat, chunk: nat, slices: seq<Slice>)
    requires NsInv(m) && inode in m.nodes
    ensures NsInv(DoReplaceSlices(m, inode, chunk, slices).state)
  {
    hide Forest, LinkCount;
  }

  /** Every operation of the engine keeps the invariant, if the caller does its part. */
  lemma PerformKeepsInv(m: MetaState, op: MetaOp)
    requires NsInv(m) && Allowed(m, op)
    ensures NsInv(Perform(m, op).state)
  {
    hide Forest, LinkCount, Counted;
    match op
    case Create(parent, name, kind) => CreateKeepsInv(m, parent, name, kind);
    case Mknod(parent, name, mode) =>
      if KindOfMode(mode).Some? {
        CreateKeepsInv(m, parent, name, KindOfMode(mode).value);
      }
    case Symlink(parent, name, target) => SymlinkKeepsInv(m, parent, name, target);
    case Link(parent, name, inode) => LinkKeepsInv(m, parent, name, inode);
    case Unlink(parent, name) => UnlinkKeepsInv(m, parent, name);
    case Rename(sp, sn, dp, dn) => RenameKeepsInv(m, sp, sn, dp, dn);
    case Forget(inode) => ForgetKeepsInv(m, inode);
    case SetSize(inode, size) => SetSizeKeepsInv(m, inode, size);
    case NextSlice =>
    case WriteSlice(inode, chunk, slice) => ChunksKeepInv(m, inode, chunk, ReadSlices(m, inode, chunk) + [slice]);
    case ReplaceSlices(inode, chunk, slices) => ChunksKeepInv(m, inode, chunk, slices);
  }

  lemma LinksOnly(nodes: Nodes, n: nat)
    ensures SameButLinks(nodes, LessLink(nodes, n)) && SameButLinks(nodes, MoreLink(nodes, n))
  {
  }

  lemma LinksOnlyTwice(a: Nodes, b: Nodes, c: Nodes)
    requires SameButLinks(a, b) && SameButLinks(b, c)
    ensures SameButLinks(a, c)
  {
  }

  lemma DetachLinksOnly(nodes: Nodes, e: Edge, parent: nat)
    ensures SameButLinks(nodes, Detach(nodes, e, parent))
  {
    hide LessLink, SameButLinks;
    LinksOnly(nodes, e.child);
    LinksOnly(LessLink(nodes, e.child), parent);
    if e.kind == Directory {
      LinksOnlyTwice(nodes, LessLink(nodes, e.child), Detach(nodes, e, parent));
    }
  }

  lemma RenamedKinds(m: MetaState, src: (string, nat), dst: (string, nat))
    requires src in m.edges
    ensures SameButLinks(m.nodes, RenamedNodes(m, src, dst))
  {
    LinksOnlyRefl(m.nodes);
    var nodes := if dst in m.edges then Detach(m.nodes, m.edges[dst], dst.1) else m.nodes;
    if dst in m.edges {
      DetachLinksOnly(m.nodes, m.edges[dst], dst.1);
    }
    hide LessLink, MoreLink, Detach, SameButLinks;
    if m.edges[src].kind == Directory && src.1 != dst.1 {
      LinksOnly(nodes, src.1);
      LinksOnly(LessLink(nodes, src.1), dst.1);
      LinksOnlyTwice(m.nodes, nodes, LessLink(nodes, src.1));
      LinksOnlyTwice(m.nodes, LessLink(nodes, src.1), MoreLink(LessLink(nodes, src.1), dst.1));
    }
  }

  lemma LinksOnlyRefl(nodes: Nodes)
    ensures SameButLinks(nodes, nodes)
  {
  }

  lemma BadRenameBreaks(m: MetaState, sp: nat, sn: string, dp: nat, dn: string)
    requires NsInv(m) && !Allowed(m, Rename(sp, sn, dp, dn))
    ensures !NsInv(DoRename(m, sp, sn, dp, dn).state)
  {
    hide LinkCount, Forest, InSubtree, RenamedNodes;
    var src, dst := (sn, sp), (dn, dp);
    var m' := DoRename(m, sp, sn, dp, dn).state;
    if dp in m.nodes && m.nodes[dp].kind == Directory {
      RenameForestIff(m, src, dst);
    } else {
      RenamedKinds(m, src, dst);
      assert dst in m'.edges;
    }
  }

  /** ... and that part is exact: without it the invariant breaks at once. */
  lemma PerformKeepsInvIff(m: MetaState, op: MetaOp)
    requires NsInv(m)
    ensures NsInv(Perform(m, op).state) <==> Allowed(m, op)
  {
    hide Forest, LinkCount, Counted, Renames;
    if Allowed(m, op) {
      PerformKeepsInv(m, op);
    } else {
      match op
      case Rename(sp, sn, dp, dn) => RenameKeepsInv(m, sp, sn, dp, dn);
      case WriteSlice(inode, chunk, _) => assert (inode, chunk) in Perform(m, op).state.chunks;
      case ReplaceSlices(inode, chunk, _) => assert (inode, chunk) in Perform(m, op).state.chunks;
    }
  }

  /** Symlinks keep having targets exactly as long as nobody makes one with `create`. */
  lemma TargetsIff(m: MetaState, op: MetaOp)
    requires NsInv(m) && TargetsStored(m)
    ensures TargetsStored(Perform(m, op).state) <==>
            !(op.Create? && op.kind == FileType.Symlink && Perform(m, op).reply.Found?)
  {
    hide Forest, LinkCount, Counted, LessLink, MoreLink, Detach;
    var m' := Perform(m, op).state;
    if op.Rename? && Renames(m, op.srcParent, op.srcName, op.dstParent, op.dstName) {
      hide RenamedNodes, RenamedEdges;
      RenamedKinds(m, (op.srcName, op.srcParent), (op.dstName, op.dstParent));
    } else if op.Unlink? && Perform(m, op).reply.Done? {
      DetachLinksOnly(m.nodes, m.edges[(op.name, op.parent)], op.parent);
    } else if op.Create? && op.kind == FileType.Symlink && Perform(m, op).reply.Found? {
      assert m.nextInode in m'.nodes && m.nextInode !in m.nodes;
    }
  }

  // ---- whole runs ----

  function RunOps(m: MetaState, ops: seq<MetaOp>): MetaState
    decreases |ops|
  {
    if ops == [] then m else RunOps(Perform(m, ops[0]).state, ops[1..])
  }

  ghost predicate AllAllowed(m: MetaState, ops: seq<MetaOp>)
    decreases |ops|
  {
    ops == [] || (Allowed(m, ops[0]) && AllAllowed(Perform(m, ops[0]).state, ops[1..]))
  }

  lemma InitialInv()
    ensures NsInv(INITIAL)
  {
    assert EntriesOf(INITIAL.edges, ROOT_INODE) == {} && SubDirs(INITIAL.edges, ROOT_INODE) == {};
    assert Ranked(INITIAL.edges, n => n);
  }

  /** Every table state the engine can reach has exact link counts, no dangling entry and no cycle. */
  lemma {:induction false} ReachableInv(m: MetaState, ops: seq<MetaOp>)
    requires NsInv(m) && AllAllowed(m, ops)
    ensures NsInv(RunOps(m, ops))
    decreases |ops|
  {
    hide NsInv, Allowed, Perform;
    if ops == [] {
    } else {
      PerformKeepsInv(m, ops[0]);
      ReachableInv(Perform(m, ops[0]).state, ops[1..]);
    }
  }

  lemma NumbersOnlyGrow(m: MetaState, op: MetaOp)
    ensures Perform(m, op).state.nextInode >= m.nextInode
    ensures forall n | n in Perform(m, op).state.nodes :: n in m.nodes || n == m.nextInode
    ensures forall n | n in Perform(m, op).state.nodes && n !in m.nodes :: Perform(m, op).state.nextInode > n
  {
  }

  /** A forgotten inode number is never issued again. */
  lemma {:induction false} NeverReissued(m: MetaState, ops: seq<MetaOp>, inode: nat)
    requires inode < m.nextInode && inode !in m.nodes
    ensures inode !in RunOps(m, ops).nodes
    decreases |ops|
  {
    hide Perform;
    if ops == [] {
    } else {
      NumbersOnlyGrow(m, ops[0]);
      NeverReissued(Perform(m, ops[0]).state, ops[1..], inode);
    }
  }

  /** `rmdir` leaves the directory's node behind with one link, so `forget` never removes it. */
  lemma RemovedDirectoryKeepsOneLink(m: MetaState, parent: nat, name: string)
    requires NsInv(m) && DoUnlink(m, parent, name).reply.Done?
    requires m.edges[(name, parent)].kind == Directory
    ensures var dir, m' := m.edges[(name, parent)].child, DoUnlink(m, parent, name).state;
            && dir in m'.nodes && m'.nodes[dir].nlink == 1 && DoForget(m', dir).state == m'
            && forall k | k in m'.edges :: m'.edges[k].child != dir && k.1 != dir
  {
    var k := (name, parent);
    var dir := m.edges[k].child;
    var m' := DoUnlink(m, parent, name).state;
    UnlinkKeepsInv(m, parent, name);
    NothingInside(m, k);
    hide Forest, EntriesOf, SubDirs, Detach;
    assert m'.nodes[dir].nlink == LinkCount(m'.edges, Directory, dir);
  }

  /** After an empty directory's entry is gone, no entry names it or lies in it. */
  lemma NothingInside(m: MetaState, k: (string, nat))
    requires NsInv(m) && k in m.edges && m.edges[k].kind == Directory && !HasEntries(m.edges, m.edges[k].child)
    ensures var dir, edges := m.edges[k].child, m.edges - {k};
            && EntriesOf(edges, dir) == {} && SubDirs(edges, dir) == {}
            && dir in m.nodes && m.nodes[dir].kind == Directory && dir != ROOT_INODE
            && forall l | l in edges :: edges[l].child != dir && l.1 != dir
  {
    hide LinkCount;
    var edges := m.edges - {k};
    assert forall l | l in edges && edges[l].child == m.edges[k].child :: l == k;
  }
}
