/** All runs of the SQLite engine, its own way of replacing a target included. */
module SqliteRuns {
  import opened Types
  import opened MetaModel
  import opened Namespace
  import opened SqliteModel
  import opened Simulation

  // ---- the namespace without chunk and symlink rows ----

  function Bare(q: SqlState): SqlState { q.(chunk := map[], symlink := map[]) }

  function Stripped(m: MetaState): MetaState { m.(chunks := map[], symlinks := map[]) }

  ghost predicate SymlinksIssued(q: SqlState) {
    forall j | j in q.symlink :: j <= q.nextInode
  }

  /** `m` is the namespace of `q` in redb's terms. */
  ghost predicate Shadow(m: MetaState, q: SqlState) {
    m == Stripped(m) && Same(m, Bare(q)) && SymlinksIssued(q)
  }

  lemma StrippedSame(m: MetaState, q: SqlState)
    requires Same(m, q)
    ensures Same(Stripped(m), Bare(q))
  {
    hide SameNodes, SameEdges;
  }

  lemma StrippedInv(m: MetaState)
    requires NsInv(m)
    ensures NsInv(Stripped(m))
  {
    hide Forest, LinkCount, Counted;
  }

  /** Rows of chunks and targets decide nothing in the namespace. */
  lemma BareReads(q: SqlState, parent: nat, name: string)
    ensures LookupRow(Bare(q), parent, name) == LookupRow(q, parent, name)
    ensures SqlEntryError(Bare(q), parent, name) == SqlEntryError(q, parent, name)
    ensures SqlHasEntries(Bare(q), parent) == SqlHasEntries(q, parent)
  {
  }

  predicate SameTree(a: SqlOutcome, b: SqlOutcome) {
    a.reply == b.reply && Bare(a.state) == Bare(b.state)
  }

  lemma BareCreate(q: SqlState, parent: nat, name: string, kind: FileType)
    ensures SameTree(SqlCreate(q, parent, name, kind), SqlCreate(Bare(q), parent, name, kind))
  {
    hide AddLinks;
    BareReads(q, parent, name);
  }

  lemma BareSymlink(q: SqlState, parent: nat, name: string, target: string)
    requires SymlinksIssued(q)
    ensures SameTree(SqlSymlink(q, parent, name, target), SqlSymlink(Bare(q), parent, name, target))
  {
    BareReads(q, parent, name);
  }

  lemma BareLink(q: SqlState, parent: nat, name: string, inode: nat)
    ensures SameTree(SqlLink(q, parent, name, inode), SqlLink(Bare(q), parent, name, inode))
  {
    hide AddLinks;
    BareReads(q, parent, name);
  }

  lemma BareUnlink(q: SqlState, parent: nat, name: string)
    ensures SameTree(SqlUnlink(q, parent, name), SqlUnlink(Bare(q), parent, name))
  {
    hide AddLinks, SqlHasEntries;
    BareReads(q, parent, name);
    if LookupRow(q, parent, name).Some? {
      BareReads(q, LookupRow(q, parent, name).value, name);
    }
  }

  lemma BareMove(q: SqlState, q0: SqlState, isDir: bool, src: (nat, string), dst: (nat, string))
    requires src in q.edge && Bare(q) == Bare(q0)
    ensures SameTree(SqlMove(q, isDir, src, dst), SqlMove(q0, isDir, src, dst))
  {
    hide AddLinks;
    assert q.edge == Bare(q).edge == q0.edge && q.node == Bare(q).node == q0.node;
  }

  lemma BareRename(q: SqlState, sp: nat, sn: string, dp: nat, dn: string)
    ensures SameTree(SqlRename(q, sp, sn, dp, dn), SqlRename(Bare(q), sp, sn, dp, dn))
  {
    hide AddLinks, SqlHasEntries, SqlMove;
    BareReads(q, sp, sn);
    BareReads(q, dp, dn);
    var src, dst := (sp, sn), (dp, dn);
    if src != dst && LookupRow(q, sp, sn).Some? {
      var isDir := q.node[LookupRow(q, sp, sn).value].kind == Directory;
      BareMove(q, Bare(q), isDir, src, dst);
      if LookupRow(q, dp, dn).Some? {
        var target := LookupRow(q, dp, dn).value;
        BareReads(q, target, dn);
        BareMove(SqlDisplace(q, target, dst), SqlDisplace(Bare(q), target, dst), isDir, src, dst);
      }
    }
  }

  lemma BareStep(q: SqlState, op: MetaOp)
    requires SymlinksIssued(q)
    ensures SameTree(SqlPerform(q, op), SqlPerform(Bare(q), op))
  {
    hide SqlCreate, SqlSymlink, SqlLink, SqlUnlink, SqlRename, SqlReadSlices, AddLinks;
    match op
    case Create(parent, name, kind) => BareCreate(q, parent, name, kind);
    case Mknod(parent, name, mode) =>
      if KindOfMode(mode).Some? {
        BareCreate(q, parent, name, KindOfMode(mode).value);
      }
    case Symlink(parent, name, target) => BareSymlink(q, parent, name, target);
    case Link(parent, name, inode) => BareLink(q, parent, name, inode);
    case Unlink(parent, name) => BareUnlink(q, parent, name);
    case Rename(sp, sn, dp, dn) => BareRename(q, sp, sn, dp, dn);
    case _ =>
  }

  lemma SymlinksStayIssued(q: SqlState, op: MetaOp)
    requires SymlinksIssued(q)
    ensures SymlinksIssued(SqlPerform(q, op).state)
  {
    hide AddLinks, SqlHasEntries, LookupRow, SqlEntryError;
  }

  // ---- replacing the last link of a file ----

  /** The tables once the target of `dst` and its entry are gone. */
  function Dropped(m: MetaState, dst: (string, nat)): MetaState
    requires dst in m.edges
  {
    m.(nodes := LessLink(m.nodes, m.edges[dst].child) - {m.edges[dst].child}, edges := m.edges - {dst})
  }

  /** `dst` names a file that has no other name. */
  predicate LastLink(m: MetaState, dst: (string, nat)) {
    && dst in m.edges && m.edges[dst].kind != Directory
    && m.edges[dst].child in m.nodes && m.nodes[m.edges[dst].child].nlink <= 1
  }

  lemma DroppedCounts(m: MetaState, dst: (string, nat))
    requires NsInv(m) && LastLink(m, dst)
    ensures LinksCounted(Dropped(m, dst)) && SameButLinks(m.nodes, LessLink(m.nodes, m.edges[dst].child))
    ensures LessLink(m.nodes, m.edges[dst].child)[m.edges[dst].child].nlink == 0
  {
    EntryIsOk(m, dst);
    DetachCounts(m.nodes, m.edges, dst);
    hide NsInv, LinkCount, LinksCounted;
    FewerCounted(LessLink(m.nodes, m.edges[dst].child), m.edges - {dst}, m.edges[dst].child);
  }

  lemma FewerCounted(nodes: Nodes, edges: Edges, n: nat)
    requires Counted(nodes, edges)
    ensures Counted(nodes - {n}, edges)
  {
    hide LinkCount;
  }

  /** With the target gone at once, the move has what it needs; the moved entry names something else. */
  lemma MovableAfterDrop(m: MetaState, src: (string, nat), dst: (string, nat))
    requires NsInv(m) && src != dst && src in m.edges && LastLink(m, dst)
    requires dst.1 in m.nodes && m.nodes[dst.1].kind == Directory
    ensures var m1 := Dropped(m, dst);
            && EntryOk(m1.nodes, m1.edges, src) && dst !in m1.edges
            && dst.1 in m1.nodes && m1.nodes[dst.1].kind == Directory && m1.edges[src] == m.edges[src]
            && src.1 != m.edges[dst].child
  {
    EntryIsOk(m, src);
    EntryIsOk(m, dst);
    LastName(m, src, dst);
    LinksOnly(m.nodes, m.edges[dst].child);
    hide NsInv, LinksCounted, LessLink;
    SurvivesDrop(m.nodes, LessLink(m.nodes, m.edges[dst].child), m.edges, src, dst);
  }

  lemma SurvivesDrop(nodes: Nodes, nodes': Nodes, edges: Edges, src: (string, nat), dst: (string, nat))
    requires EntryOk(nodes, edges, src) && EntryOk(nodes, edges, dst) && SameButLinks(nodes, nodes') && src != dst
    requires edges[dst].kind != Directory && edges[src].child != edges[dst].child
    requires dst.1 in nodes && nodes[dst.1].kind == Directory
    ensures var target := edges[dst].child;
            && EntryOk(nodes' - {target}, edges - {dst}, src) && (edges - {dst})[src] == edges[src]
            && dst.1 in nodes' - {target} && nodes'[dst.1].kind == Directory && src.1 != target
  {
  }

  /** A file with one link has one name. */
  lemma LastName(m: MetaState, k: (string, nat), l: (string, nat))
    requires NsInv(m) && k in m.edges && k != l && LastLink(m, l)
    ensures m.edges[k].child != m.edges[l].child
  {
    hide Forest, RowsOwned;
    var n := m.edges[l].child;
    if m.edges[k].child == n {
      var names := EntriesOf(m.edges, n);
      assert m.nodes[n].nlink == LinkCount(m.edges, m.nodes[n].kind, n) == |names|;
      assert {k, l} <= names;
      SubsetSize({k, l}, names);
    }
  }

  lemma {:induction false} SubsetSize<T>(a: set<T>, b: set<T>)
    requires a <= b
    ensures |a| <= |b|
    decreases |a|
  {
    if a == {} {
    } else {
      var x :| x in a;
      SubsetSize(a - {x}, b - {x});
    }
  }

  lemma DisplaceDrops(m: MetaState, q: SqlState, dst: (string, nat))
    requires Same(m, q) && NsInv(m) && LastLink(m, dst)
    ensures Phi(m.edges[dst].child) in q.node
    ensures Same(Dropped(m, dst), SqlDisplace(q, Phi(m.edges[dst].child), (Phi(dst.1), dst.0)))
  {
    var target := m.edges[dst].child;
    EntryIsOk(m, dst);
    DetachCounts(m.nodes, m.edges, dst);
    NodeRow(m, q, target);
    hide NsInv, SameNodes, SameEdges, SameChunks, SameSymlinks, Counted, LinkCount;
    FewerLinks(m.nodes, q.node, target);
    DropNode(LessLink(m.nodes, target), AddLinks(q.node, Phi(target), -1), target);
    DropEdge(m.edges, q.edge, dst);
  }

  /** Where SQLite drops the replaced node at once, it does what a redb rename and a forget do. */
  lemma DropIsForget(m: MetaState, q: SqlState, src: (string, nat), dst: (string, nat))
    requires Same(m, q) && NsInv(m) && Allowed(m, Rename(src.1, src.0, dst.1, dst.0)) && m == Stripped(m)
    requires |src.0| <= NAME_MAX && |dst.0| <= NAME_MAX && src != dst && src in m.edges && LastLink(m, dst)
    ensures Same(DoForget(DoRename(m, src.1, src.0, dst.1, dst.0).state, m.edges[dst].child).state,
                 SqlRename(q, Phi(src.1), src.0, Phi(dst.1), dst.0).state)
    ensures NsInv(DoForget(DoRename(m, src.1, src.0, dst.1, dst.0).state, m.edges[dst].child).state)
  {
    var target := m.edges[dst].child;
    DestinationIs(m, src, dst);
    DroppedCounts(m, dst);
    MovableAfterDrop(m, src, dst);
    DisplaceDrops(m, q, dst);
    FileIsNoDirectory(m, dst);
    SqlRenamedVia(m, q, src, dst);
    RenameKeepsInv(m, src.1, src.0, dst.1, dst.0);
    ForgottenIs(m, src, dst);
    var t := SqlDisplace(q, Phi(target), (Phi(dst.1), dst.0));
    hide *;
    MoveAgrees(Dropped(m, dst), t, src, dst);
    ForgetKeepsInv(DoRename(m, src.1, src.0, dst.1, dst.0).state, target);
  }

  lemma FileIsNoDirectory(m: MetaState, dst: (string, nat))
    requires LastLink(m, dst)
    ensures dst in m.edges && (m.edges[dst].kind == Directory ==> !HasEntries(m.edges, m.edges[dst].child))
  {
  }

  lemma DestinationIs(m: MetaState, src: (string, nat), dst: (string, nat))
    requires Allowed(m, Rename(src.1, src.0, dst.1, dst.0))
    requires |src.0| <= NAME_MAX && |dst.0| <= NAME_MAX && src != dst && src in m.edges
    ensures dst.1 in m.nodes && m.nodes[dst.1].kind == Directory
  {
    hide InSubtree;
    assert src == (src.0, src.1) && dst == (dst.0, dst.1);
  }

  /** Dropping the target before or after the move is the same. */
  lemma ForgottenIs(m: MetaState, src: (string, nat), dst: (string, nat))
    requires NsInv(m) && m == Stripped(m) && src != dst && src in m.edges && LastLink(m, dst)
    requires |src.0| <= NAME_MAX && |dst.0| <= NAME_MAX
    requires dst.1 in m.nodes && m.nodes[dst.1].kind == Directory
    ensures var m1 := Dropped(m, dst);
            && src in m1.edges
            && DoForget(DoRename(m, src.1, src.0, dst.1, dst.0).state, m.edges[dst].child).state
               == m1.(nodes := RenamedNodes(m1, src, dst), edges := RenamedEdges(m1.edges, src, dst))
  {
    var target := m.edges[dst].child;
    var m' := DoRename(m, src.1, src.0, dst.1, dst.0).state;
    DroppedCounts(m, dst);
    MovableAfterDrop(m, src, dst);
    RenameIs(m, src, dst);
    NodesApart(m, src, dst);
    EdgesApart(m.edges, src, dst);
    hide NsInv, LinksCounted, Counted, LessLink, RenamedNodes, RenamedEdges, DoRename, EntryOk;
    assert target in m'.nodes && m'.nodes[target].nlink == 0;
    ForgetRows(m', target);
  }

  lemma EdgesApart(edges: Edges, src: (string, nat), dst: (string, nat))
    requires src in edges && src != dst
    ensures src in edges - {dst} && RenamedEdges(edges - {dst}, src, dst) == RenamedEdges(edges, src, dst)
  {
    assert edges - {dst} - {dst} - {src} == edges - {dst} - {src};
  }

  lemma NodesApart(m: MetaState, src: (string, nat), dst: (string, nat))
    requires src in m.edges && src != dst && LastLink(m, dst) && src.1 != m.edges[dst].child
    requires dst.1 in m.nodes && m.nodes[dst.1].kind == Directory
    requires m.nodes[m.edges[dst].child].kind == m.edges[dst].kind
    ensures var target := m.edges[dst].child;
            && src in Dropped(m, dst).edges
            && RenamedNodes(Dropped(m, dst), src, dst) == RenamedNodes(m, src, dst) - {target}
            && target in RenamedNodes(m, src, dst)
            && RenamedNodes(m, src, dst)[target] == LessLink(m.nodes, target)[target]
  {
    var target := m.edges[dst].child;
    LinksApart(LessLink(m.nodes, target), target, src.1, dst.1);
    hide LessLink, MoreLink;
    assert Detach(m.nodes, m.edges[dst], dst.1) == LessLink(m.nodes, target);
    assert dst !in m.edges - {dst};
    StaysIn(m.nodes, target);
  }

  lemma StaysIn(nodes: Nodes, n: nat)
    requires n in nodes
    ensures n in LessLink(nodes, n)
  {
  }

  lemma LinksApart(nodes: Nodes, target: nat, a: nat, b: nat)
    requires target in nodes && a != target && b != target
    ensures MoreLink(LessLink(nodes, a), b) - {target} == MoreLink(LessLink(nodes - {target}, a), b)
    ensures target in MoreLink(LessLink(nodes, a), b) && MoreLink(LessLink(nodes, a), b)[target] == nodes[target]
  {
  }

  // ---- every step, every run ----

  /** What the operation is in redb's terms: nothing if SQLite refuses to replace a directory with entries,
      a rename and a forget if it drops the target, else the operation itself. */
  ghost function ShadowStep(m: MetaState, op: MetaOp): MetaState {
    if op.Rename? && !SameRename(m, op.srcParent, op.srcName, op.dstParent, op.dstName) then
      var target := m.edges[(op.dstName, op.dstParent)];
      if target.kind == Directory then m
      else DoForget(Perform(m, op).state, target.child).state
    else
      Stripped(Perform(m, op).state)
  }

  lemma ShadowRename(m: MetaState, q: SqlState, op: MetaOp)
    requires Same(m, q) && NsInv(m) && Allowed(m, op) && m == Stripped(m) && q == Bare(q)
    requires op.Rename? && !SameRename(m, op.srcParent, op.srcName, op.dstParent, op.dstName)
    ensures Same(ShadowStep(m, op), SqlPerform(q, RenOp(op)).state) && NsInv(ShadowStep(m, op))
    ensures ShadowStep(m, op) == Stripped(ShadowStep(m, op))
  {
    var src, dst := (op.srcName, op.srcParent), (op.dstName, op.dstParent);
    EntryIsOk(m, dst);
    RenameOps(m, q, src, dst);
    assert op == Rename(src.1, src.0, dst.1, dst.0);
    hide NsInv, Same, Allowed, HasEntries, LinksCounted, SqlRename, DoRename, Perform, SqlPerform, RenOp, DoForget;
    if m.edges[dst].kind == Directory {
      SqlRefuses(m, q, src, dst);
    } else {
      DropIsForget(m, q, src, dst);
      StaysStripped(m, op, m.edges[dst].child);
    }
  }

  lemma StaysStripped(m: MetaState, op: MetaOp, inode: nat)
    requires m == Stripped(m) && op.Rename?
    ensures DoForget(Perform(m, op).state, inode).state == Stripped(DoForget(Perform(m, op).state, inode).state)
  {
    hide RenamedNodes, RenamedEdges, DoForget;
    ForgetRows(Perform(m, op).state, inode);
  }

  lemma ForgetRows(m: MetaState, inode: nat)
    ensures DoForget(m, inode).state.chunks.Keys <= m.chunks.Keys
    ensures DoForget(m, inode).state.symlinks.Keys <= m.symlinks.Keys
  {
  }

  /** Every step keeps a shadow that has all of redb's invariants. */
  lemma StepKeepsShadow(m: MetaState, q: SqlState, op: MetaOp)
    requires Shadow(m, q) && NsInv(m) && Allowed(m, op)
    ensures Shadow(ShadowStep(m, op), SqlPerform(q, RenOp(op)).state) && NsInv(ShadowStep(m, op))
  {
    BareStep(q, RenOp(op));
    SymlinksStayIssued(q, RenOp(op));
    var q0, t, t0 := Bare(q), SqlPerform(q, RenOp(op)).state, SqlPerform(Bare(q), RenOp(op)).state;
    assert q0 == Bare(q0) && Bare(t) == Bare(t0);
    hide NsInv, Same, Allowed, SameRename, SqlPerform, Perform, RenOp, SymlinksIssued;
    if op.Rename? && !SameRename(m, op.srcParent, op.srcName, op.dstParent, op.dstName) {
      ShadowRename(m, q0, op);
      StrippedSame(ShadowStep(m, op), t0);
    } else {
      StepAgrees(m, q0, op);
      PerformKeepsInv(m, op);
      StrippedSame(Perform(m, op).state, t0);
      StrippedInv(Perform(m, op).state);
    }
  }

  ghost function RunShadow(m: MetaState, ops: seq<MetaOp>): MetaState
    decreases |ops|
  {
    if ops == [] then m else RunShadow(ShadowStep(m, ops[0]), ops[1..])
  }

  /** The kernel's part of the contract, along the run. */
  ghost predicate AllAllowedHere(m: MetaState, ops: seq<MetaOp>)
    decreases |ops|
  {
    ops == [] || (Allowed(m, ops[0]) && AllAllowedHere(ShadowStep(m, ops[0]), ops[1..]))
  }

  lemma {:induction false} RunKeepsShadow(m: MetaState, q: SqlState, ops: seq<MetaOp>)
    requires Shadow(m, q) && NsInv(m) && AllAllowedHere(m, ops)
    ensures Shadow(RunShadow(m, ops), RunSql(q, ops)) && NsInv(RunShadow(m, ops))
    decreases |ops|
  {
    hide Shadow, NsInv, Allowed, ShadowStep, SqlPerform, RenOp;
    if ops == [] {
    } else {
      StepKeepsShadow(m, q, ops[0]);
      RunKeepsShadow(ShadowStep(m, ops[0]), SqlPerform(q, RenOp(ops[0])).state, ops[1..]);
    }
  }

  /** Every state SQLite can reach, by renames of any kind: exact link counts, nothing dangling, a forest,
      in the numbering of redb. */
  lemma SqlReachableInv(ops: seq<MetaOp>)
    requires AllAllowedHere(INITIAL, ops)
    ensures exists m :: Same(m, Bare(RunSql(SQL_INITIAL, ops))) && NsInv(m)
  {
    InitialInv();
    InitialSame();
    assert Bare(SQL_INITIAL) == SQL_INITIAL;
    RunKeepsShadow(INITIAL, SQL_INITIAL, ops);
    hide NsInv, Same;
    assert Same(RunShadow(INITIAL, ops), Bare(RunSql(SQL_INITIAL, ops)));
  }

  // ---- rows that nobody removes ----

  ghost predicate ChunksOwned(q: SqlState) {
    forall k | k in q.chunk :: k.0 in q.node
  }

  /** The rename drops the node that `dst` named. */
  ghost predicate Drops(q: SqlState, sp: nat, sn: string, dp: nat, dn: string) {
    && LookupRow(q, dp, dn).Some?
    && LookupRow(q, dp, dn).value !in SqlRename(q, sp, sn, dp, dn).state.node
  }

  lemma RenameRows(q: SqlState, sp: nat, sn: string, dp: nat, dn: string)
    ensures var t := SqlRename(q, sp, sn, dp, dn).state;
            && t.chunk == q.chunk && t.nextInode == q.nextInode
            && (forall j | j in q.node && j !in t.node :: LookupRow(q, dp, dn) == Some(j))
            && (forall j | j in t.node :: j in q.node)
  {
    hide SqlHasEntries;
  }

  /** A rename leaves chunk rows without a node exactly when it drops a node that has some. */
  lemma RenameLeaksIff(q: SqlState, sp: nat, sn: string, dp: nat, dn: string)
    requires ChunksOwned(q)
    ensures ChunksOwned(SqlRename(q, sp, sn, dp, dn).state) <==>
            !(Drops(q, sp, sn, dp, dn) && exists k | k in q.chunk :: k.0 == LookupRow(q, dp, dn).value)
  {
    RenameRows(q, sp, sn, dp, dn);
    hide SqlRename, LookupRow;
    var t := SqlRename(q, sp, sn, dp, dn).state;
    if Drops(q, sp, sn, dp, dn) && exists k | k in q.chunk :: k.0 == LookupRow(q, dp, dn).value {
      var k :| k in q.chunk && k.0 == LookupRow(q, dp, dn).value;
      assert k in t.chunk && k.0 !in t.node;
    }
  }

  lemma LeakedStep(q: SqlState, op: MetaOp, k: (nat, nat))
    requires k in q.chunk && k.0 !in q.node && k.0 <= q.nextInode
    ensures var t := SqlPerform(q, op).state; k in t.chunk && k.0 !in t.node && k.0 <= t.nextInode
  {
    hide SqlHasEntries;
  }

  /** And there they stay: `forget` looks for the node first, and inode numbers are not issued again. */
  lemma {:induction false} LeakedForGood(q: SqlState, ops: seq<MetaOp>, k: (nat, nat))
    requires k in q.chunk && k.0 !in q.node && k.0 <= q.nextInode
    ensures k in RunSql(q, ops).chunk && k.0 !in RunSql(q, ops).node
    decreases |ops|
  {
    hide SqlPerform, RenOp;
    if ops == [] {
    } else {
      LeakedStep(q, RenOp(ops[0]), k);
      LeakedForGood(SqlPerform(q, RenOp(ops[0])).state, ops[1..], k);
    }
  }
}
