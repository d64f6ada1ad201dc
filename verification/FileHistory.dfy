/** A file as size plus sparse contents, against the plain byte array that POSIX describes. */
module FileHistory {
  import opened Types
  import opened MetaModel
  import opened System
  import opened Namespace
  import opened Overlay

  /** `Cut` is a write that ended early, by a crash or a failing size update, when `landed` was in the
      chunks and the size had not moved. `Other` is anything that leaves the file alone: work on other
      files, flushes, compactions, crashes outside its writes. */
  datatype FileOp =
    | WriteAt(offset: nat, data: Bytes)
    | Cut(offset: nat, landed: Bytes)
    | Resize(size: nat)
    | Other

  datatype Sparse = Sparse(size: nat, at: nat -> byte)

  function Over(at: nat -> byte, offset: nat, data: Bytes): nat -> byte {
    (i: nat) => if offset <= i < offset + |data| then data[i - offset] else at(i)
  }

  function StepSparse(f: Sparse, op: FileOp): Sparse {
    match op
    case WriteAt(offset, data) => Sparse(Max(f.size, offset + |data|), Over(f.at, offset, data))
    case Cut(offset, landed) => f.(at := Over(f.at, offset, landed))
    case Resize(size) => f.(size := size)
    case Other => f
  }

  /** What a reader of the whole file gets. */
  function Visible(f: Sparse): (v: Bytes)
    ensures |v| == f.size && forall i: nat | i < f.size :: v[i] == f.at(i)
  {
    seq(f.size, (i: nat) => f.at(i))
  }

  function Padded(a: Bytes, n: nat): Bytes {
    if n <= |a| then a else a + seq(n - |a|, _ => 0)
  }

  /** POSIX: a gap left by a write reads as zeros, and a write of no bytes does nothing. */
  function PosixWrite(a: Bytes, offset: nat, data: Bytes): Bytes {
    if data == [] then a
    else
      var b := Padded(a, offset + |data|);
      b[..offset] + data + b[offset + |data|..]
  }

  /** A write that ended early counts as one of those of its bytes that lie below the end of file. */
  function StepPosix(a: Bytes, op: FileOp): Bytes {
    match op
    case WriteAt(offset, data) => PosixWrite(a, offset, data)
    case Cut(offset, landed) =>
      PosixWrite(a, offset, landed[..Min(|landed|, if offset <= |a| then |a| - offset else 0)])
    case Resize(size) => if size <= |a| then a[..size] else Padded(a, size)
    case Other => a
  }

  /** The bytes between the old end of file and what the operation leaves untouched below the new end. */
  predicate InGap(f: Sparse, op: FileOp, i: nat) {
    f.size <= i < match op case WriteAt(offset, _) => offset case Resize(size) => size case _ => 0
  }

  /** The gap the operation exposes holds zeros; a write of no bytes must not lie beyond the end. */
  ghost predicate Conforms(f: Sparse, op: FileOp) {
    if op.WriteAt? && op.data == [] then op.offset <= f.size
    else forall i: nat | InGap(f, op, i) :: f.at(i) == 0
  }

  /** Exactly then the step does what POSIX says, whatever is stored beyond the end. */
  lemma StepAgreesIff(f: Sparse, op: FileOp)
    ensures Visible(StepSparse(f, op)) == StepPosix(Visible(f), op) <==> Conforms(f, op)
  {
    var v, p := Visible(StepSparse(f, op)), StepPosix(Visible(f), op);
    if op.WriteAt? && op.data == [] {
      assert |v| == Max(f.size, op.offset) && |p| == f.size;
    } else {
      assert |v| == |p|;
      forall i: nat | i < |v| ensures InGap(f, op, i) ==> v[i] == f.at(i) && p[i] == 0
                              ensures !InGap(f, op, i) ==> v[i] == p[i]
      {
      }
      if v == p {
        forall i: nat | InGap(f, op, i) ensures f.at(i) == 0 {
          assert i < |v| && v[i] == p[i];
        }
      }
    }
  }

  // ---- what lies beyond the end ----

  ghost predicate ZeroTail(f: Sparse) {
    forall i: nat | f.size <= i :: f.at(i) == 0
  }

  /** A shrink drops only zeros, and a write that ended early landed only zeros beyond the end. */
  ghost predicate KeepsTail(f: Sparse, op: FileOp) {
    match op
    case Resize(size) => forall i: nat | size <= i < f.size :: f.at(i) == 0
    case Cut(offset, landed) =>
      forall k | 0 <= k < |landed| && f.size <= offset + k :: landed[k] == 0
    case _ => true
  }

  /** Those two are the only ways to leave bytes beyond the end. */
  lemma ZeroTailIff(f: Sparse, op: FileOp)
    requires ZeroTail(f)
    ensures ZeroTail(StepSparse(f, op)) <==> KeepsTail(f, op)
  {
    var g := StepSparse(f, op);
    if ZeroTail(g) && op.Cut? {
      forall k | 0 <= k < |op.landed| && f.size <= op.offset + k ensures op.landed[k] == 0 {
        assert g.at(op.offset + k) == 0;
      }
    } else if ZeroTail(g) && op.Resize? {
      forall i: nat | op.size <= i < f.size ensures f.at(i) == 0 {
        assert g.at(i) == 0;
      }
    }
  }

  function ZeroBeyond(a: Bytes): Sparse {
    Sparse(|a|, (i: nat) => if i < |a| then a[i] else 0)
  }

  /** A shrink followed by a growth brings the old byte back. */
  lemma ShrinkThenGrowExposes()
    ensures var f, g := ZeroBeyond([7]), StepSparse(ZeroBeyond([7]), Resize(0));
            && Visible(StepSparse(g, Resize(1))) == [7]
            && StepPosix(StepPosix(Visible(f), Resize(0)), Resize(1)) == [0]
  {
  }

  /** A write that ended before its size update comes to light when the file grows. */
  lemma CutThenGrowExposes()
    ensures var f, g := ZeroBeyond([]), StepSparse(ZeroBeyond([]), Cut(0, [7]));
            && Visible(g) == [] && Visible(StepSparse(g, Resize(1))) == [7]
            && StepPosix(StepPosix(Visible(f), Cut(0, [7])), Resize(1)) == [0]
  {
  }

  /** A write of no bytes beyond the end moves the end. */
  lemma EmptyWriteGrows()
    ensures var f := ZeroBeyond([]);
            && Visible(StepSparse(f, WriteAt(5, []))) == [0, 0, 0, 0, 0]
            && StepPosix(Visible(f), WriteAt(5, [])) == []
  {
  }

  // ---- histories of the real state ----

  ghost function FileOf(s: Sys, inode: nat): Sparse
    requires inode in s.meta.nodes
  {
    Sparse(s.meta.nodes[inode].size, (i: nat) => Content(s, inode, i))
  }

  /** Same file, as far as offsets whose chunk index fits. */
  ghost predicate SameFile(f: Sparse, g: Sparse) {
    f.size == g.size && forall i: nat | i < MAX_OFFSET :: f.at(i) == g.at(i)
  }

  /** The file went through `op` between `s` and `t`. */
  ghost predicate Did(s: Sys, t: Sys, inode: nat, op: FileOp) {
    && inode in s.meta.nodes && inode in t.meta.nodes
    && SameFile(FileOf(t, inode), StepSparse(FileOf(s, inode), op))
  }

  /** A created file starts empty, whatever files had existed before. */
  lemma NewFileIsEmpty(s: Sys, parent: nat, name: string, kind: FileType)
    requires NsInv(s.meta) && DoCreate(s.meta, parent, name, kind).reply.Found?
    ensures var inode := DoCreate(s.meta, parent, name, kind).reply.attr.inode;
            var t := s.(meta := DoCreate(s.meta, parent, name, kind).state);
            && inode !in s.meta.nodes && inode in t.meta.nodes && t.meta.nodes[inode].size == 0
            && forall i: nat :: Content(t, inode, i) == 0
  {
    hide Forest, LinkCount;
    NewNodeUnnamed(s.meta);
    var inode := s.meta.nextInode;
    assert forall chunk: nat :: (inode, chunk) !in s.meta.chunks;
  }

  predicate Within(op: FileOp) {
    match op
    case WriteAt(offset, data) => offset + |data| <= MAX_OFFSET
    case Cut(offset, landed) => offset + |landed| <= MAX_OFFSET
    case Resize(size) => size <= MAX_OFFSET
    case Other => true
  }

  /** The file goes through `ops`, one between each two of `states`. */
  ghost predicate History(states: seq<Sys>, ops: seq<FileOp>, inode: nat) {
    && |states| == |ops| + 1
    && inode in states[0].meta.nodes && states[0].meta.nodes[inode].size <= MAX_OFFSET
    && forall n | 0 <= n < |ops| :: Did(states[n], states[n + 1], inode, ops[n]) && Within(ops[n])
  }

  function RunPosix(a: Bytes, ops: seq<FileOp>): Bytes {
    if ops == [] then a else StepPosix(RunPosix(a, ops[..|ops| - 1]), ops[|ops| - 1])
  }

  lemma {:induction false} StaysWithin(states: seq<Sys>, ops: seq<FileOp>, inode: nat, n: nat)
    requires History(states, ops, inode) && n <= |ops|
    ensures inode in states[n].meta.nodes && FileOf(states[n], inode).size <= MAX_OFFSET
    decreases n
  {
    hide Content;
    if n == 0 {
    } else {
      StaysWithin(states, ops, inode, n - 1);
      assert Did(states[n - 1], states[n - 1 + 1], inode, ops[n - 1]);
    }
  }

  /** What the reader sees is decided below 2^58. */
  lemma StepOfHistory(f: Sparse, g: Sparse, op: FileOp)
    requires SameFile(g, StepSparse(f, op)) && Within(op) && f.size <= MAX_OFFSET
    ensures Visible(g) == Visible(StepSparse(f, op))
    ensures Visible(g) == StepPosix(Visible(f), op) <==> Conforms(f, op)
  {
    StepAgreesIff(f, op);
    var h := StepSparse(f, op);
    assert g.size == h.size <= MAX_OFFSET;
    assert forall i: nat | i < g.size :: Visible(g)[i] == g.at(i) == h.at(i) == Visible(h)[i];
    assert Visible(g) == Visible(h);
  }

  /** After the first `n` operations the file reads as POSIX says. */
  ghost predicate PosixAt(states: seq<Sys>, ops: seq<FileOp>, inode: nat, n: nat)
    requires History(states, ops, inode) && n <= |ops|
  {
    && inode in states[n].meta.nodes
    && Visible(FileOf(states[n], inode)) == RunPosix(Visible(FileOf(states[0], inode)), ops[..n])
  }

  ghost predicate ConformsAt(states: seq<Sys>, ops: seq<FileOp>, inode: nat, n: nat)
    requires History(states, ops, inode) && n < |ops|
  {
    inode in states[n].meta.nodes && Conforms(FileOf(states[n], inode), ops[n])
  }

  lemma NextAgreesIff(states: seq<Sys>, ops: seq<FileOp>, inode: nat, n: nat)
    requires History(states, ops, inode) && n < |ops| && PosixAt(states, ops, inode, n)
    ensures PosixAt(states, ops, inode, n + 1) <==> ConformsAt(states, ops, inode, n)
  {
    hide Content, StepPosix, StepSparse, Conforms, Visible, SameFile, FileOf;
    StaysWithin(states, ops, inode, n);
    assert Did(states[n], states[n + 1], inode, ops[n]);
    StepOfHistory(FileOf(states[n], inode), FileOf(states[n + 1], inode), ops[n]);
    assert ops[..n + 1][..n] == ops[..n];
  }

  /** Over any history, shrinks and crashed writes included: the file is the POSIX byte array all along
      exactly when every operation met zeros in the gap it exposed, and none wrote nothing beyond the end. */
  lemma {:induction false} HistoryAgreesIff(states: seq<Sys>, ops: seq<FileOp>, inode: nat, n: nat)
    requires History(states, ops, inode) && n <= |ops|
    ensures (forall k | 0 <= k <= n :: PosixAt(states, ops, inode, k)) <==>
            (forall k | 0 <= k < n :: ConformsAt(states, ops, inode, k))
    decreases n
  {
    hide PosixAt, ConformsAt;
    if n == 0 {
      assert PosixAt(states, ops, inode, 0) by { AtTheStart(states, ops, inode); }
    } else {
      HistoryAgreesIff(states, ops, inode, n - 1);
      if PosixAt(states, ops, inode, n - 1) {
        NextAgreesIff(states, ops, inode, n - 1);
      }
    }
  }

  lemma AtTheStart(states: seq<Sys>, ops: seq<FileOp>, inode: nat)
    requires History(states, ops, inode)
    ensures PosixAt(states, ops, inode, 0)
  {
    assert ops[..0] == [];
  }

  /** What can be checked before the call: no write of nothing beyond the end, no shrink over bytes that
      are not zero, and no write cut short with such bytes beyond the end. */
  ghost predicate Safe(f: Sparse, op: FileOp) {
    KeepsTail(f, op) && (op.WriteAt? && op.data == [] ==> op.offset <= f.size)
  }

  ghost predicate ZeroTailWithin(f: Sparse) {
    forall i: nat | f.size <= i < MAX_OFFSET :: f.at(i) == 0
  }

  /** Then the file is the POSIX byte array after every operation. */
  lemma {:induction false} HistoryIsPosix(states: seq<Sys>, ops: seq<FileOp>, inode: nat, n: nat)
    requires History(states, ops, inode) && n <= |ops|
    requires ZeroTailWithin(FileOf(states[0], inode))
    requires forall k | 0 <= k < |ops| && inode in states[k].meta.nodes :: Safe(FileOf(states[k], inode), ops[k])
    ensures inode in states[n].meta.nodes && ZeroTailWithin(FileOf(states[n], inode))
    ensures Visible(FileOf(states[n], inode)) == RunPosix(Visible(FileOf(states[0], inode)), ops[..n])
    decreases n
  {
    hide Content, StepPosix, StepSparse, Safe, Visible, ZeroTailWithin, SameFile, FileOf, Conforms;
    if n == 0 {
      assert ops[..0] == [];
    } else {
      HistoryIsPosix(states, ops, inode, n - 1);
      StaysWithin(states, ops, inode, n - 1);
      assert Did(states[n - 1], states[n - 1 + 1], inode, ops[n - 1]);
      StepOfHistory(FileOf(states[n - 1], inode), FileOf(states[n], inode), ops[n - 1]);
      TailOfHistory(FileOf(states[n - 1], inode), FileOf(states[n], inode), ops[n - 1]);
      assert ops[..n][..n - 1] == ops[..n - 1];
    }
  }

  lemma TailOfHistory(f: Sparse, g: Sparse, op: FileOp)
    requires SameFile(g, StepSparse(f, op)) && Within(op) && Safe(f, op)
    requires f.size <= MAX_OFFSET && ZeroTailWithin(f)
    ensures ZeroTailWithin(g) && Conforms(f, op)
  {
    forall i: nat | g.size <= i < MAX_OFFSET ensures g.at(i) == 0 {
      assert g.at(i) == StepSparse(f, op).at(i);
    }
  }
}
