/** The redb engine. A write transaction works on copies of the tables and commits them together. */
module RedbEngine {
  import opened Types
  import opened MetaModel

  datatype DirEntry = DirEntry(inode: nat, name: string, kind: FileType)

  class RedbMetaEngine {
    var nodes: Nodes
    var edges: Edges
    var chunks: map<(nat, nat), seq<Slice>>
    var symlinks: map<nat, string>
    var nextInode: nat
    var nextSlice: nat

    ghost function View(): MetaState
      reads this
    {
      MetaState(nodes, edges, chunks, symlinks, nextInode, nextSlice)
    }

    /** A fresh database after `init`. */
    constructor ()
      ensures View() == INITIAL
    {
      nodes := map[ROOT_INODE := Node(Directory, 0, 2)];
      edges, chunks, symlinks := map[], map[], map[];
      nextInode, nextSlice := 2, 1;
    }

    /** A database opened again. */
    constructor Reopen(m: MetaState)
      ensures View() == m
    {
      nodes, edges, chunks, symlinks := m.nodes, m.edges, m.chunks, m.symlinks;
      nextInode, nextSlice := m.nextInode, m.nextSlice;
    }

    method GetAttr(inode: nat) returns (r: Result<Attr, MetaError>)
      ensures r == MetaModel.GetAttr(View(), inode)
    {
      if inode !in nodes {
        return Err(NotFound);
      }
      return Ok(ToAttr(inode, nodes[inode]));
    }

    method Lookup(parent: nat, name: string) returns (r: Result<Attr, MetaError>)
      ensures r == LookupName(View(), parent, name)
    {
      if |name| > NAME_MAX {
        return Err(NameTooLong);
      }
      if (name, parent) !in edges {
        return Err(NotFound);
      }
      r := GetAttr(edges[(name, parent)].child);
    }

    /** Scans the whole edge table, in table order. */
    method Readdir(inode: nat) returns (r: Result<seq<DirEntry>, MetaError>)
      ensures inode !in nodes ==> r == Err(NotFound)
      ensures inode in nodes && nodes[inode].kind != Directory ==> r == Err(NotDirectory)
      ensures inode in nodes && nodes[inode].kind == Directory ==>
                && r.Ok?
                && (forall d :: d in r.value <==>
                      (d.name, inode) in edges && edges[(d.name, inode)] == Edge(d.inode, d.kind))
                && (forall i, j | 0 <= i < j < |r.value| :: r.value[i].name != r.value[j].name)
    {
      if inode !in nodes {
        return Err(NotFound);
      }
      if nodes[inode].kind != Directory {
        return Err(NotDirectory);
      }
      var entries: seq<DirEntry> := [];
      var todo := edges.Keys;
      while todo != {}
        invariant todo <= edges.Keys
        invariant forall d :: d in entries <==>
                    && (d.name, inode) in edges && (d.name, inode) !in todo
                    && edges[(d.name, inode)] == Edge(d.inode, d.kind)
        invariant forall i, j | 0 <= i < j < |entries| :: entries[i].name != entries[j].name
        decreases todo
      {
        var k :| k in todo;
        todo := todo - {k};
        if k.1 == inode {
          assert forall d | d in entries :: (d.name, inode) !in todo + {k};
          var d := DirEntry(edges[k].child, k.0, edges[k].kind);
          assert k == (d.name, inode);
          entries := entries + [d];
        }
      }
      return Ok(entries);
    }

    method Create(parent: nat, name: string, kind: FileType) returns (r: Reply)
      modifies this
      ensures Outcome(View(), r) == DoCreate(old(View()), parent, name, kind)
    {
      if |name| > NAME_MAX {
        return Failed(NameTooLong);
      }
      if parent !in nodes {
        return Failed(NotFound);
      }
      var parentNode := nodes[parent];
      if parentNode.kind != Directory {
        return Failed(NotDirectory);
      }
      if (name, parent) in edges {
        return Failed(AlreadyExists);
      }
      var inode := nextInode;
      nextInode := nextInode + 1;
      var nlink := if kind == Directory then 2 else 1;
      var node := Node(kind, 0, nlink);
      var txnNodes := nodes[inode := node];
      if kind == Directory {
        parentNode := parentNode.(nlink := parentNode.nlink + 1);
      }
      txnNodes := txnNodes[parent := parentNode];
      nodes, edges := txnNodes, edges[(name, parent) := Edge(inode, kind)];
      return Found(ToAttr(inode, node));
    }

    method Mknod(parent: nat, name: string, mode: nat) returns (r: Reply)
      modifies this
      ensures Outcome(View(), r) == DoMknod(old(View()), parent, name, mode)
    {
      var kind := KindOfMode(mode);
      if kind.None? {
        return Failed(NotSupported);
      }
      r := Create(parent, name, kind.value);
    }

    method Symlink(parent: nat, name: string, target: string) returns (r: Reply)
      modifies this
      ensures Outcome(View(), r) == DoSymlink(old(View()), parent, name, target)
    {
      if |name| > NAME_MAX {
        return Failed(NameTooLong);
      }
      if parent !in nodes {
        return Failed(NotFound);
      }
      if nodes[parent].kind != Directory {
        return Failed(NotDirectory);
      }
      if (name, parent) in edges {
        return Failed(AlreadyExists);
      }
      var inode := nextInode;
      nextInode := nextInode + 1;
      var node := Node(FileType.Symlink, |target|, 1);
      nodes := nodes[inode := node];
      symlinks := symlinks[inode := target];
      edges := edges[(name, parent) := Edge(inode, FileType.Symlink)];
      return Found(ToAttr(inode, node));
    }

    method Readlink(inode: nat) returns (r: Result<string, MetaError>)
      ensures r == if inode in symlinks then Ok(symlinks[inode]) else Err(NotFound)
    {
      if inode !in symlinks {
        return Err(NotFound);
      }
      return Ok(symlinks[inode]);
    }

    method Link(parent: nat, name: string, inode: nat) returns (r: Reply)
      modifies this
      ensures Outcome(View(), r) == DoLink(old(View()), parent, name, inode)
    {
      if |name| > NAME_MAX {
        return Failed(NameTooLong);
      }
      if inode !in nodes {
        return Failed(NotFound);
      }
      var node := nodes[inode];
      if node.kind == Directory {
        return Failed(PermissionDenied);
      }
      if parent !in nodes {
        return Failed(NotFound);
      }
      if nodes[parent].kind != Directory {
        return Failed(NotDirectory);
      }
      if (name, parent) in edges {
        return Failed(AlreadyExists);
      }
      node := node.(nlink := node.nlink + 1);
      nodes := nodes[inode := node];
      edges := edges[(name, parent) := Edge(inode, node.kind)];
      return Found(ToAttr(inode, node));
    }

    method DirHasEntries(dir: nat) returns (found: bool)
      ensures found <==> HasEntries(edges, dir)
    {
      var todo := edges.Keys;
      while todo != {}
        invariant todo <= edges.Keys
        invariant forall k | k in edges && k !in todo :: k.1 != dir
        decreases todo
      {
        var k :| k in todo;
        if k.1 == dir {
          return true;
        }
        todo := todo - {k};
      }
      return false;
    }

    method Unlink(parent: nat, name: string) returns (r: Reply)
      modifies this
      ensures Outcome(View(), r) == DoUnlink(old(View()), parent, name)
    {
      if |name| > NAME_MAX {
        return Failed(NameTooLong);
      }
      if (name, parent) !in edges {
        return Failed(NotFound);
      }
      var edge := edges[(name, parent)];
      if edge.kind == Directory {
        var busy := DirHasEntries(edge.child);
        if busy {
          return Failed(NotEmpty);
        }
      }
      var txnEdges := edges - {(name, parent)};
      var txnNodes := nodes;
      if edge.child !in txnNodes {
        return Failed(NotFound);
      }
      var child := txnNodes[edge.child];
      child := child.(nlink := SaturatingPred(child.nlink));
      txnNodes := txnNodes[edge.child := child];
      if parent !in txnNodes {
        return Failed(NotFound);
      }
      var parentNode := txnNodes[parent];
      if edge.kind == Directory {
        parentNode := parentNode.(nlink := SaturatingPred(parentNode.nlink));
      }
      txnNodes := txnNodes[parent := parentNode];
      nodes, edges := txnNodes, txnEdges;
      return Done;
    }

    /** The replaced target is detached first; then source child, source parent and destination
        parent are all read before any of them is written back. */
    method Rename(srcParent: nat, srcName: string, dstParent: nat, dstName: string) returns (r: Reply)
      modifies this
      ensures Outcome(View(), r) == DoRename(old(View()), srcParent, srcName, dstParent, dstName)
    {
      if |srcName| > NAME_MAX || |dstName| > NAME_MAX {
        return Failed(NameTooLong);
      }
      if srcParent == dstParent && srcName == dstName {
        return Done;
      }
      if (srcName, srcParent) !in edges {
        return Failed(NotFound);
      }
      var srcEdge := edges[(srcName, srcParent)];
      var txnEdges, txnNodes := edges, nodes;
      if (dstName, dstParent) in txnEdges {
        var dstEdge := txnEdges[(dstName, dstParent)];
        txnEdges := txnEdges - {(dstName, dstParent)};
        txnNodes := DetachTarget(txnNodes, dstEdge, dstParent);
      }
      txnEdges := txnEdges - {(srcName, srcParent)};
      txnEdges := txnEdges[(dstName, dstParent) := srcEdge];
      assert txnEdges == RenamedEdges(edges, (srcName, srcParent), (dstName, dstParent));
      txnNodes := MoveLinks(txnNodes, srcEdge, srcParent, dstParent);
      nodes, edges := txnNodes, txnEdges;
      return Done;
    }

    method Forget(inode: nat)
      modifies this
      ensures View() == DoForget(old(View()), inode).state
    {
      if inode in nodes && nodes[inode].nlink == 0 {
        nodes := nodes - {inode};
        chunks := map k | k in chunks && k.0 != inode :: chunks[k];
        symlinks := symlinks - {inode};
      }
    }

    method SetSize(inode: nat, size: nat) returns (r: Reply)
      modifies this`nodes
      ensures Outcome(View(), r) == DoSetSize(old(View()), inode, size)
    {
      if inode !in nodes {
        return Failed(NotFound);
      }
      var n := nodes[inode].(size := size);
      nodes := nodes[inode := n];
      return Found(ToAttr(inode, n));
    }

    method NextSliceId() returns (id: nat)
      modifies this`nextSlice
      ensures Outcome(View(), Id(id)) == DoNextSlice(old(View()))
    {
      id := nextSlice;
      nextSlice := nextSlice + 1;
    }

    method ReadSlices(inode: nat, chunk: nat) returns (slices: seq<Slice>)
      ensures slices == MetaModel.ReadSlices(View(), inode, chunk)
    {
      return if (inode, chunk) in chunks then chunks[(inode, chunk)] else [];
    }

    method WriteSlice(inode: nat, chunk: nat, slice: Slice)
      modifies this`chunks
      ensures View() == DoWriteSlice(old(View()), inode, chunk, slice).state
    {
      var slices := if (inode, chunk) in chunks then chunks[(inode, chunk)] else [];
      slices := slices + [slice];
      chunks := chunks[(inode, chunk) := slices];
    }

    method ReplaceSlices(inode: nat, chunk: nat, slices: seq<Slice>)
      modifies this`chunks
      ensures View() == DoReplaceSlices(old(View()), inode, chunk, slices).state
    {
      chunks := chunks[(inode, chunk) := slices];
    }

    /** Each chunk row of the inode once. */
    method GetChunksForInode(inode: nat) returns (rows: seq<(nat, seq<Slice>)>)
      ensures forall i | 0 <= i < |rows| ::
                (inode, rows[i].0) in chunks && chunks[(inode, rows[i].0)] == rows[i].1
      ensures forall i, j | 0 <= i < j < |rows| :: rows[i].0 != rows[j].0
      ensures forall k | k in chunks && k.0 == inode :: exists i :: 0 <= i < |rows| && rows[i].0 == k.1
    {
      rows := [];
      var todo := set k | k in chunks && k.0 == inode;
      while todo != {}
        invariant todo <= chunks.Keys && forall k | k in todo :: k.0 == inode
        invariant forall i | 0 <= i < |rows| ::
                    && (inode, rows[i].0) in chunks && chunks[(inode, rows[i].0)] == rows[i].1
                    && (inode, rows[i].0) !in todo
        invariant forall i, j | 0 <= i < j < |rows| :: rows[i].0 != rows[j].0
        invariant forall k | k in chunks && k.0 == inode && k !in todo ::
                    exists i :: 0 <= i < |rows| && rows[i].0 == k.1
        decreases todo
      {
        var k :| k in todo;
        todo := todo - {k};
        var before := rows;
        rows := rows + [(k.1, chunks[k])];
        assert k == (inode, k.1) && rows[|before|].0 == k.1;
        forall l | l in chunks && l.0 == inode && l !in todo
          ensures exists i :: 0 <= i < |rows| && rows[i].0 == l.1
        {
          if l != k {
            var i :| 0 <= i < |before| && before[i].0 == l.1;
            assert rows[i].0 == l.1;
          }
        }
      }
    }
  }

  /** The replaced node loses a link, then the destination directory does if a directory was replaced. */
  method DetachTarget(nodes: Nodes, dstEdge: Edge, dstParent: nat) returns (txn: Nodes)
    ensures txn == Detach(nodes, dstEdge, dstParent)
  {
    txn := nodes;
    if dstEdge.child in txn {
      var dn := txn[dstEdge.child];
      txn := txn[dstEdge.child := dn.(nlink := SaturatingPred(dn.nlink))];
    }
    if dstEdge.kind == Directory {
      if dstParent in txn {
        var pn := txn[dstParent];
        txn := txn[dstParent := pn.(nlink := SaturatingPred(pn.nlink))];
      }
    }
  }

  /** All three nodes are read before any is written, so that aliases see consistent counts. */
  method MoveLinks(nodes: Nodes, srcEdge: Edge, srcParent: nat, dstParent: nat) returns (txn: Nodes)
    ensures txn == if srcEdge.kind == Directory && srcParent != dstParent
                   then MoreLink(LessLink(nodes, srcParent), dstParent) else nodes
  {
    txn := nodes;
    var sn := if srcEdge.child in txn then Some(txn[srcEdge.child]) else None;
    var sp := if srcParent in txn then Some(txn[srcParent]) else None;
    var dp := if srcParent != dstParent && dstParent in txn then Some(txn[dstParent]) else None;
    if sn.Some? {
      txn := txn[srcEdge.child := sn.value];
      assert txn == nodes;
    }
    if sp.Some? {
      var n := sp.value;
      if srcEdge.kind == Directory && srcParent != dstParent {
        n := n.(nlink := SaturatingPred(n.nlink));
      }
      txn := txn[srcParent := n];
    }
    if dp.Some? {
      var n := dp.value;
      if srcEdge.kind == Directory {
        n := n.(nlink := n.nlink + 1);
      }
      txn := txn[dstParent := n];
    }
  }

  function SaturatingPred(n: nat): nat { if n == 0 then 0 else n - 1 }
}
