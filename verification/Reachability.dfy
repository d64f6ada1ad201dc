/** Whether every entry can be reached from the root, and which operations keep it so. */
module Reachability {
  import opened Types
  import opened MetaModel
  import opened Namespace

  /** Every directory that has entries lies in the tree under the root. */
  ghost predicate Rooted(edges: Edges) {
    forall k | k in edges :: InSubtree(edges, ROOT_INODE, k.1)
  }

  ghost predicate Attached(edges: Edges, n: nat) {
    n == ROOT_INODE || exists k | k in edges :: edges[k].child == n
  }

  /** The local view: every directory that has entries is the root or has a name. */
  ghost predicate AllAttached(edges: Edges) {
    forall k | k in edges :: Attached(edges, k.1)
  }

  lemma ParentInTree(m: MetaState, rank: nat -> nat, n: nat)
    requires NoDangling(m) && Ranked(m.edges, rank) && AllAttached(m.edges)
    requires Attached(m.edges, n) && n in m.nodes && m.nodes[n].kind == Directory
    ensures InSubtree(m.edges, ROOT_INODE, n)
    decreases rank(n)
  {
    if n == ROOT_INODE {
      TopInSubtree(m.edges, ROOT_INODE);
    } else {
      var k :| k in m.edges && m.edges[k].child == n;
      assert m.edges[k].kind == Directory;
      ParentInTree(m, rank, k.1);
      assert ChildDir(m.edges, k.1, n);
      SubtreeClosed(m.edges, ROOT_INODE, k.1, n);
    }
  }

  lemma TreeIsAttached(edges: Edges, n: nat)
    requires InSubtree(edges, ROOT_INODE, n)
    ensures Attached(edges, n)
  {
    var path :| IsPath(edges, path) && path[0] == ROOT_INODE && path[|path| - 1] == n;
    if |path| > 1 {
      assert ChildDir(edges, path[|path| - 2], path[|path| - 2 + 1]);
    }
  }

  /** In a forest the two views are one: walking up ends at the root. */
  lemma RootedIff(m: MetaState)
    requires NoDangling(m) && Forest(m.edges)
    ensures Rooted(m.edges) <==> AllAttached(m.edges)
  {
    if Rooted(m.edges) {
      forall k | k in m.edges ensures Attached(m.edges, k.1) {
        TreeIsAttached(m.edges, k.1);
      }
    }
    if AllAttached(m.edges) {
      var rank: nat -> nat :| Ranked(m.edges, rank);
      forall k | k in m.edges ensures InSubtree(m.edges, ROOT_INODE, k.1) {
        ParentInTree(m, rank, k.1);
      }
    }
  }

  /** The rename replaces a directory in which there is something besides what it moves. */
  ghost predicate Orphans(edges: Edges, src: (string, nat), dst: (string, nat)) {
    && dst in edges && edges[dst].kind == Directory
    && exists k | k in edges :: k != src && k.1 == edges[dst].child
  }

  /** New entries go into directories of the tree, and no rename orphans entries. */
  ghost predicate KeepsRooted(m: MetaState, op: MetaOp) {
    match op
    case Create(parent, _, _) => Perform(m, op).reply.Found? ==> Attached(m.edges, parent)
    case Mknod(parent, _, _) => Perform(m, op).reply.Found? ==> Attached(m.edges, parent)
    case Symlink(parent, _, _) => Perform(m, op).reply.Found? ==> Attached(m.edges, parent)
    case Link(parent, _, _) => Perform(m, op).reply.Found? ==> Attached(m.edges, parent)
    case Rename(sp, sn, dp, dn) =>
      Renames(m, sp, sn, dp, dn) ==> Attached(m.edges, dp) && !Orphans(m.edges, (sn, sp), (dn, dp))
    case _ => true
  }

  /** A new entry under `k`, naming no directory that has entries. */
  lemma AddKeepsAttachedIff(edges: Edges, k: (string, nat), e: Edge)
    requires AllAttached(edges) && k !in edges && e.child != k.1
    ensures AllAttached(edges[k := e]) <==> Attached(edges, k.1)
  {
    var after := edges[k := e];
    forall n | Attached(edges, n) ensures Attached(after, n) {
      if n != ROOT_INODE {
        var l :| l in edges && edges[l].child == n;
        assert l in after && after[l].child == n;
      }
    }
    assert k in after;
    if Attached(after, k.1) && k.1 != ROOT_INODE {
      var l :| l in after && after[l].child == k.1;
      assert l in edges && edges[l].child == k.1;
    }
  }

  lemma UnlinkKeepsAttached(m: MetaState, parent: nat, name: string)
    requires NsInv(m) && AllAttached(m.edges)
    ensures AllAttached(DoUnlink(m, parent, name).state.edges)
  {
    hide Forest, LinkCount, Counted, RowsOwned;
    var gone, after := (name, parent), DoUnlink(m, parent, name).state.edges;
    if DoUnlink(m, parent, name).reply.Done? {
      forall k | k in after ensures Attached(after, k.1) {
        assert Attached(m.edges, k.1);
        if k.1 != ROOT_INODE {
          var l :| l in m.edges && m.edges[l].child == k.1;
          assert l != gone;
          assert l in after && after[l].child == k.1;
        }
      }
    }
  }

  /** No entry names the directory it sits in. */
  lemma NamesAnother(m: MetaState, k: (string, nat))
    requires NsInv(m) && k in m.edges
    ensures m.edges[k].child != k.1
  {
    hide LinkCount, Counted, RowsOwned;
    var rank: nat -> nat :| Ranked(m.edges, rank);
  }

  /** The destination directory is named as before, or not at all. */
  lemma DestinationAttached(m: MetaState, src: (string, nat), dst: (string, nat))
    requires NsInv(m) && src in m.edges && src != dst
    requires dst.1 in m.nodes && m.nodes[dst.1].kind == Directory
    requires m.edges[src].kind == Directory ==> !InSubtree(m.edges, m.edges[src].child, dst.1)
    ensures Attached(RenamedEdges(m.edges, src, dst), dst.1) <==> Attached(m.edges, dst.1)
  {
    hide LinkCount, Counted, RowsOwned;
    var after := RenamedEdges(m.edges, src, dst);
    assert m.edges[src].child != dst.1 by {
      TopInSubtree(m.edges, m.edges[src].child);
    }
    if dst in m.edges {
      NamesAnother(m, dst);
    }
    if Attached(m.edges, dst.1) && dst.1 != ROOT_INODE {
      var l :| l in m.edges && m.edges[l].child == dst.1;
      assert l in after && after[l].child == dst.1;
    }
    if Attached(after, dst.1) && dst.1 != ROOT_INODE {
      var l :| l in after && after[l].child == dst.1;
      assert l in m.edges && m.edges[l].child == dst.1;
    }
  }

  lemma OthersAttached(m: MetaState, src: (string, nat), dst: (string, nat), k: (string, nat))
    requires NsInv(m) && AllAttached(m.edges) && src in m.edges && src != dst && !Orphans(m.edges, src, dst)
    requires k in m.edges && k != src && k != dst
    ensures Attached(RenamedEdges(m.edges, src, dst), k.1)
  {
    hide LinkCount, Counted, RowsOwned, Forest;
    var after := RenamedEdges(m.edges, src, dst);
    assert Attached(m.edges, k.1);
    if k.1 != ROOT_INODE {
      var l :| l in m.edges && m.edges[l].child == k.1;
      assert l != dst;
      if l == src {
        assert dst in after && after[dst].child == k.1;
      } else {
        assert l in after && after[l].child == k.1;
      }
    }
  }

  lemma OrphansDetached(m: MetaState, src: (string, nat), dst: (string, nat))
    requires NsInv(m) && src in m.edges && src != dst && Orphans(m.edges, src, dst)
    ensures !AllAttached(RenamedEdges(m.edges, src, dst))
  {
    hide LinkCount, Counted, RowsOwned;
    var after := RenamedEdges(m.edges, src, dst);
    var dir := m.edges[dst].child;
    var k :| k in m.edges && k != src && k.1 == dir;
    NamesAnother(m, dst);
    assert k in after;
    assert forall l | l in m.edges && m.edges[l].child == dir :: l == dst;
    assert forall l | l in after :: after[l].child != dir;
    assert !Attached(after, dir);
  }

  /** A redb rename cuts entries off exactly when it replaces a directory that holds anything else than
      the entry moved, or goes to a directory cut off before. */
  lemma RenameRootedIff(m: MetaState, src: (string, nat), dst: (string, nat))
    requires NsInv(m) && AllAttached(m.edges) && src in m.edges && src != dst
    requires dst.1 in m.nodes && m.nodes[dst.1].kind == Directory
    requires m.edges[src].kind == Directory ==> !InSubtree(m.edges, m.edges[src].child, dst.1)
    ensures AllAttached(RenamedEdges(m.edges, src, dst)) <==>
            Attached(m.edges, dst.1) && !Orphans(m.edges, src, dst)
  {
    hide NsInv, InSubtree, Attached, Orphans;
    var after := RenamedEdges(m.edges, src, dst);
    DestinationAttached(m, src, dst);
    assert dst in after;
    if Orphans(m.edges, src, dst) {
      OrphansDetached(m, src, dst);
    } else {
      forall k | k in after && k != dst ensures Attached(after, k.1) {
        OthersAttached(m, src, dst, k);
      }
    }
  }

  lemma SameEdges(m: MetaState, op: MetaOp)
    requires op.Forget? || op.SetSize? || op.NextSlice? || op.WriteSlice? || op.ReplaceSlices? ||
             Perform(m, op).reply.Failed?
    ensures Perform(m, op).state.edges == m.edges
  {
  }

  /** Entries stay reachable exactly under these conditions. */
  lemma StepRootedIff(m: MetaState, op: MetaOp)
    requires NsInv(m) && Allowed(m, op) && AllAttached(m.edges)
    ensures AllAttached(Perform(m, op).state.edges) <==> KeepsRooted(m, op)
  {
    hide Forest, LinkCount, Counted, InSubtree, Attached, Orphans, AllAttached, RenamedNodes, RenamedEdges;
    var edges, r := m.edges, Perform(m, op);
    match op
    case Unlink(parent, name) => UnlinkKeepsAttached(m, parent, name);
    case Rename(sp, sn, dp, dn) =>
      if Renames(m, sp, sn, dp, dn) {
        RenameRootedIff(m, (sn, sp), (dn, dp));
      } else {
        assert r.state.edges == edges;
      }
    case Create(parent, name, kind) =>
      if r.reply.Found? {
        NewNodeUnnamed(m);
        AddKeepsAttachedIff(edges, (name, parent), Edge(m.nextInode, kind));
      }
    case Mknod(parent, name, mode) =>
      if r.reply.Found? {
        NewNodeUnnamed(m);
        AddKeepsAttachedIff(edges, (name, parent), Edge(m.nextInode, KindOfMode(mode).value));
      }
    case Symlink(parent, name, target) =>
      if r.reply.Found? {
        NewNodeUnnamed(m);
        AddKeepsAttachedIff(edges, (name, parent), Edge(m.nextInode, FileType.Symlink));
      }
    case Link(parent, name, inode) =>
      if r.reply.Found? {
        AddKeepsAttachedIff(edges, (name, parent), Edge(inode, m.nodes[inode].kind));
      }
    case _ => SameEdges(m, op);
  }

  ghost predicate AllKeepRooted(m: MetaState, ops: seq<MetaOp>)
    decreases |ops|
  {
    ops == [] || (KeepsRooted(m, ops[0]) && AllKeepRooted(Perform(m, ops[0]).state, ops[1..]))
  }

  lemma {:induction false} RunKeepsAttached(m: MetaState, ops: seq<MetaOp>)
    requires NsInv(m) && AllAttached(m.edges) && AllAllowed(m, ops) && AllKeepRooted(m, ops)
    ensures NsInv(RunOps(m, ops)) && AllAttached(RunOps(m, ops).edges)
    decreases |ops|
  {
    hide NsInv, Allowed, Perform, KeepsRooted, AllAttached;
    if ops == [] {
    } else {
      PerformKeepsInv(m, ops[0]);
      StepRootedIff(m, ops[0]);
      RunKeepsAttached(Perform(m, ops[0]).state, ops[1..]);
    }
  }

  /** From a new file system, as long as no rename replaces a directory with other things in it and
      nothing is put into a directory cut off: every entry is reachable from the root. */
  lemma ReachableRooted(ops: seq<MetaOp>)
    requires AllAllowed(INITIAL, ops) && AllKeepRooted(INITIAL, ops)
    ensures Rooted(RunOps(INITIAL, ops).edges)
  {
    InitialInv();
    RunKeepsAttached(INITIAL, ops);
    RootedIff(RunOps(INITIAL, ops));
  }

  lemma HasSubdirectory(edges: Edges, top: nat, n: nat)
    requires InSubtree(edges, top, n) && n != top
    ensures exists k | k in edges :: k.1 == top
  {
    var path :| IsPath(edges, path) && path[0] == top && path[|path| - 1] == n;
    assert ChildDir(edges, path[0], path[0 + 1]);
  }

  /** Two directories, a file in the second, and the first renamed over it: redb agrees, and the file is
      in no directory that has a name. */
  lemma RenameOrphansFile()
    ensures var ops := [Create(1, "a", Directory), Create(1, "b", Directory), Create(3, "c", Regular),
                        Rename(1, "a", 1, "b")];
            && AllAllowed(INITIAL, ops)
            && ("c", 3) in RunOps(INITIAL, ops).edges && !Rooted(RunOps(INITIAL, ops).edges)
  {
    var op1, op2, op3 := Create(1, "a", Directory), Create(1, "b", Directory), Create(3, "c", Regular);
    var op4 := Rename(1, "a", 1, "b");
    assert "a" != "b" by { assert "a"[0] != "b"[0]; }
    var m1 := Perform(INITIAL, op1).state;
    assert m1.edges == map[("a", 1) := Edge(2, Directory)];
    var m2 := Perform(m1, op2).state;
    assert m2.edges == map[("a", 1) := Edge(2, Directory), ("b", 1) := Edge(3, Directory)];
    var m3 := Perform(m2, op3).state;
    assert m3.edges == m2.edges[("c", 3) := Edge(4, Regular)];
    assert !InSubtree(m3.edges, 2, 1) by {
      if InSubtree(m3.edges, 2, 1) {
        HasSubdirectory(m3.edges, 2, 1);
      }
    }
    assert Allowed(m3, op4);
    var m4 := Perform(m3, op4).state;
    assert ("c", 3) in m4.edges && forall k | k in m4.edges :: m4.edges[k].child != 3;
    assert !Rooted(m4.edges) by {
      if InSubtree(m4.edges, ROOT_INODE, 3) {
        TreeIsAttached(m4.edges, 3);
      }
    }
    hide Perform, Allowed, Rooted;
    RunFour(INITIAL, op1, op2, op3, op4);
  }

  lemma RunFour(m: MetaState, a: MetaOp, b: MetaOp, c: MetaOp, d: MetaOp)
    ensures var m1 := Perform(m, a).state;
            var m2 := Perform(m1, b).state;
            var m3 := Perform(m2, c).state;
            && RunOps(m, [a, b, c, d]) == Perform(m3, d).state
            && (Allowed(m, a) && Allowed(m1, b) && Allowed(m2, c) && Allowed(m3, d) ==> AllAllowed(m, [a, b, c, d]))
  {
    hide Perform, Allowed;
    assert [a, b, c, d][1..] == [b, c, d] && [b, c, d][1..] == [c, d] && [c, d][1..] == [d];
    assert RunOps(Perform(m, a).state, [b, c, d]) == RunOps(Perform(Perform(m, a).state, b).state, [c, d]);
    var m3 := Perform(Perform(Perform(m, a).state, b).state, c).state;
    assert RunOps(m3, [d]) == Perform(m3, d).state;
    if Allowed(m, a) && Allowed(Perform(m, a).state, b) && Allowed(Perform(Perform(m, a).state, b).state, c)
       && Allowed(m3, d) {
      assert AllAllowed(Perform(m3, d).state, [d][1..]);
      assert AllAllowed(m3, [d]);
      assert AllAllowed(Perform(Perform(m, a).state, b).state, [c, d]);
    }
  }
}
