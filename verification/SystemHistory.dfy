/** Every run of the system is a history of every file that stays. */
module SystemHistory {
  import opened Types
  import opened MetaModel
  import opened CacheModel
  import opened Overlay
  import opened System
  import opened Namespace
  import opened FileHistory
  import opened ConcurrentRead

  /** Inode numbers in use were issued before. */
  ghost predicate Issued(m: MetaState) {
    forall n | n in m.nodes :: n < m.nextInode
  }

  lemma IssuedStays(s: Sys, e: SysEvent)
    requires Issued(s.meta)
    ensures Issued(ApplySys(s, e).meta)
  {
    hide Apply, Perform;
    if e.OfMeta? {
      NumbersOnlyGrow(s.meta, e.op);
    }
  }

  /** Only a resize of the file itself moves its size. */
  lemma SizeKept(m: MetaState, op: MetaOp, inode: nat)
    requires Issued(m) && inode in m.nodes && inode in Perform(m, op).state.nodes
    requires !(op.SetSize? && op.inode == inode)
    ensures Perform(m, op).state.nodes[inode].size == m.nodes[inode].size
  {
    hide LessLink, MoreLink, Detach;
    if op.Rename? && Renames(m, op.srcParent, op.srcName, op.dstParent, op.dstName) {
      hide RenamedNodes, RenamedEdges;
      RenamedKinds(m, (op.srcName, op.srcParent), (op.dstName, op.dstParent));
    } else if op.Unlink? && Perform(m, op).reply.Done? {
      DetachLinksOnly(m.nodes, m.edges[(op.name, op.parent)], op.parent);
    }
  }

  /** Only slice operations on the file itself, or forgetting it, touch its rows. */
  lemma RowsKept(m: MetaState, op: MetaOp, inode: nat, chunk: nat)
    requires inode in m.nodes && inode in Perform(m, op).state.nodes
    requires !op.WriteSlice? && !op.ReplaceSlices?
    ensures ReadSlices(Perform(m, op).state, inode, chunk) == ReadSlices(m, inode, chunk)
  {
    hide LessLink, MoreLink, Detach, RenamedNodes, RenamedEdges;
  }

  /** What an event does to a file, in the words of FileHistory. */
  function EffectOn(s: Sys, e: SysEvent, inode: nat): FileOp {
    if e.OfMeta? && e.op.SetSize? && e.op.inode == inode then Resize(e.op.size)
    else if e.OfMeta? && e.op.WriteSlice? && e.op.inode == inode && e.op.chunk < U32
            && e.op.slice.id in s.cache.truth then
      Cut(e.op.chunk * CHUNK_SIZE + e.op.slice.offset, s.cache.truth[e.op.slice.id])
    else Other
  }

  lemma InSlice(i: nat, chunk: nat, offset: nat, len: nat)
    requires i < MAX_OFFSET && offset + len <= CHUNK_SIZE
    ensures chunk < U32 ==>
              (chunk * CHUNK_SIZE + offset <= i < chunk * CHUNK_SIZE + offset + len <==>
               ChunkIndex(i) == chunk && offset <= i % CHUNK_SIZE < offset + len)
    ensures ChunkIndex(i) == chunk ==> chunk < U32 && i == chunk * CHUNK_SIZE + i % CHUNK_SIZE
  {
    InChunk(i);
    var c, x := ChunkIndex(i), i % CHUNK_SIZE;
    if c < chunk {
      assert (chunk - c) * CHUNK_SIZE >= CHUNK_SIZE;
    } else if c > chunk {
      assert (c - chunk) * CHUNK_SIZE >= CHUNK_SIZE;
    }
  }

  lemma SliceIsCut(s: Sys, op: MetaOp, inode: nat)
    requires op.WriteSlice? && EnabledSys(s, OfMeta(op)) && inode in s.meta.nodes
    ensures Did(s, ApplySys(s, OfMeta(op)), inode, EffectOn(s, OfMeta(op), inode))
  {
    var t, slice := ApplySys(s, OfMeta(op)), op.slice;
    assert SliceOk(s.cache, slice) && t.meta.nodes == s.meta.nodes;
    forall i: nat | i < MAX_OFFSET
      ensures Content(t, inode, i) == StepSparse(FileOf(s, inode), EffectOn(s, OfMeta(op), inode)).at(i)
    {
      WriteSliceContent(s, op.inode, op.chunk, slice, inode, i);
      InSlice(i, op.chunk, slice.offset, slice.length);
    }
  }

  lemma MetaEffect(s: Sys, op: MetaOp, inode: nat)
    requires SysInv(s) && Issued(s.meta) && EnabledSys(s, OfMeta(op)) && !op.WriteSlice?
    requires inode in s.meta.nodes && inode in ApplySys(s, OfMeta(op)).meta.nodes
    ensures Did(s, ApplySys(s, OfMeta(op)), inode, EffectOn(s, OfMeta(op), inode))
  {
    hide SysInv, OverlayAt, SliceOk, Referenced, SameOverlay;
    var t := ApplySys(s, OfMeta(op));
    assert forall i: nat :: Content(t, inode, i) == Content(s, inode, i) by {
      if op.ReplaceSlices? {
        MetaEventKeepsContents(s, op);
      } else {
        hide Perform;
        forall chunk: nat ensures ReadSlices(t.meta, inode, chunk) == ReadSlices(s.meta, inode, chunk) {
          RowsKept(s.meta, op, inode, chunk);
        }
      }
    }
    assert op.SetSize? && op.inode == inode ==> t.meta.nodes[inode].size == op.size;
    if !(op.SetSize? && op.inode == inode) {
      SizeKept(s.meta, op, inode);
    }
    hide Content, ApplySys, Perform;
  }

  /** Every legal event cuts a write into the file, resizes it, or leaves it alone. */
  lemma EventDoes(s: Sys, e: SysEvent, inode: nat)
    requires SysInv(s) && Issued(s.meta) && EnabledSys(s, e)
    requires inode in s.meta.nodes && inode in ApplySys(s, e).meta.nodes
    ensures Did(s, ApplySys(s, e), inode, EffectOn(s, e, inode))
  {
    hide SysInv, Content;
    match e
    case OfCache(c) => CacheEventKeepsContents(s, c);
    case OfMeta(op) =>
      if op.WriteSlice? {
        SliceIsCut(s, op, inode);
      } else {
        MetaEffect(s, op, inode);
      }
  }

  /** The states a run passes through. */
  function States(s: Sys, es: seq<SysEvent>): (r: seq<Sys>)
    ensures |r| == |es| + 1 && forall k | 0 <= k <= |es| :: r[k] == StateAt(s, es, k)
  {
    seq(|es| + 1, k requires 0 <= k <= |es| => StateAt(s, es, k))
  }

  ghost predicate StaysThrough(s: Sys, es: seq<SysEvent>, inode: nat) {
    forall k | 0 <= k <= |es| :: inode in StateAt(s, es, k).meta.nodes
  }

  lemma {:induction false} IssuedThrough(s: Sys, es: seq<SysEvent>, k: nat)
    requires Issued(s.meta) && LegalSys(s, es) && k <= |es|
    ensures Issued(StateAt(s, es, k).meta)
    decreases k
  {
    hide Issued, EnabledSys, ApplySys, StateAt;
    if k == 0 {
      assert es[..0] == [];
      AtStart(s, es);
    } else {
      IssuedThrough(s, es, k - 1);
      NextState(s, es, k - 1);
      IssuedStays(StateAt(s, es, k - 1), es[k - 1]);
    }
  }

  lemma AtStart(s: Sys, es: seq<SysEvent>)
    ensures StateAt(s, es, 0) == s
  {
  }

  lemma EffectWithin(s: Sys, e: SysEvent, inode: nat)
    requires EnabledSys(s, e)
    requires e.OfMeta? && e.op.SetSize? && e.op.inode == inode ==> e.op.size <= MAX_OFFSET
    ensures Within(EffectOn(s, e, inode))
  {
    hide Enabled;
    if e.OfMeta? && e.op.WriteSlice? && e.op.inode == inode && e.op.chunk < U32 {
      assert SliceOk(s.cache, e.op.slice);
      assert e.op.chunk * CHUNK_SIZE + CHUNK_SIZE <= MAX_OFFSET;
    }
  }

  /** So every legal run, crashes and recoveries included, is a history of each file that stays through it,
      and what FileHistory says of histories holds of it. */
  lemma RunIsHistory(s: Sys, es: seq<SysEvent>, inode: nat) returns (ops: seq<FileOp>)
    requires SysInv(s) && Issued(s.meta) && LegalSys(s, es) && StaysThrough(s, es, inode)
    requires inode in s.meta.nodes && s.meta.nodes[inode].size <= MAX_OFFSET
    requires forall e | e in es && e.OfMeta? && e.op.SetSize? && e.op.inode == inode :: e.op.size <= MAX_OFFSET
    ensures |ops| == |es| && History(States(s, es), ops, inode) && forall op | op in ops :: !op.WriteAt?
  {
    hide SysInv, EnabledSys, ApplySys, StateAt, Did, Issued, EffectOn, Within;
    ops := [];
    AtStart(s, es);
    for k := 0 to |es|
      invariant |ops| == k && forall op | op in ops :: !op.WriteAt?
      invariant forall n | 0 <= n < k ::
                  Did(StateAt(s, es, n), StateAt(s, es, n + 1), inode, ops[n]) && Within(ops[n])
    {
      StateKept(s, es, k);
      IssuedThrough(s, es, k);
      NextState(s, es, k);
      var u := StateAt(s, es, k);
      EventDoes(u, es[k], inode);
      assert es[k] in es;
      EffectWithin(u, es[k], inode);
      EffectIsNoWrite(u, es[k], inode);
      ops := ops + [EffectOn(u, es[k], inode)];
    }
  }

  lemma EffectIsNoWrite(s: Sys, e: SysEvent, inode: nat)
    requires EnabledSys(s, e)
    ensures !EffectOn(s, e, inode).WriteAt?
  {
    hide Enabled;
  }
}
