/** What the attribute reads and the lookups of both engines answer. */
module Attributes {
  import opened Types
  import opened MetaModel
  import opened Namespace
  import opened SqliteModel
  import opened Simulation

  /** The node and the name both answer these attributes. */
  predicate Answers(m: MetaState, parent: nat, name: string, attr: Attr) {
    GetAttr(m, attr.inode) == Ok(attr) && LookupName(m, parent, name) == Ok(attr)
  }

  /** A created node answers under its number and under its name, with a number nobody had. */
  lemma CreatedIsFound(m: MetaState, parent: nat, name: string, kind: FileType)
    requires NsInv(m) && DoCreate(m, parent, name, kind).reply.Found?
    ensures var o := DoCreate(m, parent, name, kind);
            var attr := Attr(m.nextInode, kind, 0, if kind == Directory then 2 else 1);
            o.reply == Found(attr) && attr.inode !in m.nodes && Answers(o.state, parent, name, attr)
  {
    hide Forest, LinkCount;
    NewNodeUnnamed(m);
  }

  /** The POSIX file-type bits, octal 0o010000, 0o020000, 0o060000, 0o100000 and 0o140000. */
  function TypeBits(kind: FileType): nat
    requires Special(kind)
  {
    match kind
    case Fifo => 0x1000
    case CharDevice => 0x2000
    case BlockDevice => 0x6000
    case Regular => 0x8000
    case Socket => 0xC000
  }

  /** What `mknod` can make. */
  predicate Special(kind: FileType) { kind != Directory && kind != FileType.Symlink }

  /** The mode's type bits, `mode & 0o170000`. */
  function TypeBitsOf(mode: nat): nat { mode % 0x1_0000 - mode % 0x1000 }

  /** They alone choose the kind. */
  lemma KindOfModeIff(mode: nat, kind: FileType)
    ensures KindOfMode(mode) == Some(kind) <==> Special(kind) && TypeBitsOf(mode) == TypeBits(kind)
  {
    TypeDigit(mode);
    hide TypeBitsOf;
    var digit := (mode / 0x1000) % 0x10;
    assert TypeBitsOf(mode) == 0x1000 * digit;
  }

  lemma TypeDigit(mode: nat)
    ensures TypeBitsOf(mode) == 0x1000 * ((mode / 0x1000) % 0x10)
  {
    var digit := (mode / 0x1000) % 0x10;
    Digits(mode / 0x1_0000, mode % 0x1_0000, mode / 0x1000 / 0x10, digit, mode % 0x1000);
  }

  /** A number below 2^16 is a digit and three more, in one way. */
  lemma Digits(q: nat, r: nat, rest: nat, digit: nat, low: nat)
    requires 0x1_0000 * q + r == 0x1_0000 * rest + 0x1000 * digit + low
    requires r < 0x1_0000 && digit < 0x10 && low < 0x1000
    ensures r == 0x1000 * digit + low
  {
  }

  /** `mknod` makes a node of the kind the mode says, whatever the permission bits, or refuses the mode. */
  lemma MadeNodeIsFound(m: MetaState, parent: nat, name: string, mode: nat)
    requires NsInv(m)
    ensures var o := DoMknod(m, parent, name, mode);
            && (forall kind | Special(kind) && TypeBitsOf(mode) == TypeBits(kind) && o.reply.Found? ::
                  var attr := Attr(m.nextInode, kind, 0, 1);
                  o.reply == Found(attr) && Answers(o.state, parent, name, attr))
            && ((forall kind | Special(kind) :: TypeBitsOf(mode) != TypeBits(kind)) ==> o == Fail(m, NotSupported))
  {
    hide KindOfMode, NsInv, TypeBits, TypeBitsOf, DoCreate, Answers;
    match KindOfMode(mode) {
      case None =>
        forall kind ensures !(Special(kind) && TypeBitsOf(mode) == TypeBits(kind)) {
          KindOfModeIff(mode, kind);
        }
      case Some(made) =>
        forall kind ensures Special(kind) && TypeBitsOf(mode) == TypeBits(kind) <==> kind == made {
          KindOfModeIff(mode, kind);
        }
        assert Special(made) && TypeBitsOf(mode) == TypeBits(made);
        if DoCreate(m, parent, name, made).reply.Found? {
          CreatedIsFound(m, parent, name, made);
        }
    }
  }

  lemma SymlinkIsFound(m: MetaState, parent: nat, name: string, target: string)
    requires NsInv(m) && DoSymlink(m, parent, name, target).reply.Found?
    ensures var o := DoSymlink(m, parent, name, target);
            var attr := Attr(m.nextInode, FileType.Symlink, |target|, 1);
            && o.reply == Found(attr) && attr.inode !in m.nodes && Answers(o.state, parent, name, attr)
            && attr.inode in o.state.symlinks && o.state.symlinks[attr.inode] == target
  {
    hide Forest, LinkCount;
    NewNodeUnnamed(m);
  }

  /** Names of more than 255 characters are refused before anything else, others never for their length. */
  lemma NameTooLongIff(m: MetaState, op: MetaOp)
    requires op.Create? || op.Symlink? || op.Link? || op.Unlink? || op.Rename?
    ensures Perform(m, op).reply == Failed(NameTooLong) <==>
            if op.Rename? then |op.srcName| > 255 || |op.dstName| > 255 else |op.name| > 255
    ensures !op.Rename? ==> forall parent :: LookupName(m, parent, op.name) == Err(NameTooLong) <==> |op.name| > 255
  {
    hide HasEntries, RenamedNodes, RenamedEdges, Detach;
  }

  /** A new name of an old node: one link more, and all its names answer the same. */
  lemma LinkIsFound(m: MetaState, parent: nat, name: string, inode: nat)
    requires DoLink(m, parent, name, inode).reply.Found?
    ensures inode in m.nodes
    ensures var o, n := DoLink(m, parent, name, inode), m.nodes[inode];
            var attr := Attr(inode, n.kind, n.size, n.nlink + 1);
            && o.reply == Found(attr) && Answers(o.state, parent, name, attr)
            && forall k | k in m.edges && m.edges[k].child == inode && |k.0| <= NAME_MAX ::
                 Answers(o.state, k.1, k.0, attr)
  {
    forall k | k in m.edges && m.edges[k].child == inode && |k.0| <= NAME_MAX
      ensures LookupName(DoLink(m, parent, name, inode).state, k.1, k.0)
           == GetAttr(DoLink(m, parent, name, inode).state, inode)
    {
      assert k == (k.0, k.1);
    }
  }

  /** A new size is answered for its node, and for no other. */
  lemma SizeIsFound(m: MetaState, inode: nat, size: nat, other: nat)
    requires inode in m.nodes
    ensures var o, n := DoSetSize(m, inode, size), m.nodes[inode];
            && o.reply == Found(Attr(inode, n.kind, size, n.nlink))
            && GetAttr(o.state, other) == if other == inode then Ok(o.reply.attr) else GetAttr(m, other)
  {
  }

  /** In every reachable state a node answers its own number, the number of its links, and the kind that every
      entry for it records; and each of its names leads to it. */
  lemma AnsweredIsCounted(m0: MetaState, ops: seq<MetaOp>, inode: nat)
    requires NsInv(m0) && AllAllowed(m0, ops) && GetAttr(RunOps(m0, ops), inode).Ok?
    ensures var m := RunOps(m0, ops);
            var attr := GetAttr(m, inode).value;
            && attr.inode == inode && attr.nlink == LinkCount(m.edges, attr.kind, inode)
            && forall k | k in m.edges && m.edges[k].child == inode ::
                 m.edges[k].kind == attr.kind && (|k.0| <= NAME_MAX ==> LookupName(m, k.1, k.0) == Ok(attr))
  {
    ReachableInv(m0, ops);
    hide Forest, LinkCount, AllAllowed, RunOps;
    var m := RunOps(m0, ops);
    forall k | k in m.edges && m.edges[k].child == inode
      ensures m.edges[k].kind == m.nodes[inode].kind && (|k.0| <= NAME_MAX ==> LookupName(m, k.1, k.0).Ok?)
    {
      assert k == (k.0, k.1);
    }
  }

  /** A count is read back as a `u32`: negative ones wrap around. */
  lemma LinksWrap(nlink: int)
    requires nlink < U32
    ensures nlink >= 0 ==> LinksRead(nlink) == nlink
    ensures 0 <= LinksRead(nlink) < U32 && (LinksRead(nlink) - nlink) % U32 == 0
  {
    if nlink < 0 {
      assert LinksRead(nlink) - nlink == -(nlink / U32) * U32;
    }
  }

  function RenAttr(r: Result<Attr, MetaError>): Result<Attr, MetaError> {
    if r.Ok? then Ok(r.value.(inode := Phi(r.value.inode))) else r
  }

  /** Both engines answer the same attributes, for corresponding nodes and for any name. */
  lemma AttributesAgree(m: MetaState, q: SqlState, inode: nat, name: string)
    requires Same(m, q)
    ensures SqlGetAttr(q, Phi(inode)) == RenAttr(GetAttr(m, inode))
    ensures SqlLookup(q, Phi(inode), name) == RenAttr(LookupName(m, inode, name))
  {
    NodeRow(m, q, inode);
    EdgeRow(m, q, (name, inode));
    if (name, inode) in m.edges {
      NodeRow(m, q, m.edges[(name, inode)].child);
    }
  }
}
