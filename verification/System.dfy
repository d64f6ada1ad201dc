/** Metadata and cache together, as one transition system. */
module System {
  import opened Types
  import opened MetaModel
  import opened CacheModel
  import opened Overlay

  datatype Sys = Sys(meta: MetaState, cache: CacheState)

  datatype SysEvent = OfCache(e: Event) | OfMeta(op: MetaOp)

  function ApplySys(s: Sys, e: SysEvent): Sys {
    match e
    case OfCache(c) => s.(cache := Apply(s.cache, c))
    case OfMeta(op) => s.(meta := Perform(s.meta, op).state)
  }

  predicate Referenced(m: MetaState, id: nat) {
    exists k, i :: k in m.chunks && 0 <= i < |m.chunks[k]| && m.chunks[k][i].id == id
  }

  /** The slice describes stored bytes of a live id and stays inside its chunk. */
  predicate SliceOk(c: CacheState, s: Slice) {
    && s.id in c.live && s.id in c.truth
    && |c.truth[s.id]| == s.length
    && s.offset + s.length <= CHUNK_SIZE
  }

  ghost predicate SameOverlay(a: seq<Slice>, b: seq<Slice>, data: Store) {
    forall off: nat :: OverlayAt(a, data, off) == OverlayAt(b, data, off)
  }

  /** When the file system takes the step. Slices are only replaced by one that reads the same. */
  ghost predicate EnabledSys(s: Sys, e: SysEvent) {
    match e
    case OfCache(c) =>
      && Enabled(s.cache, c)
      && (c.Append? ==> c.id < s.meta.nextSlice)
      && (c.Kill? ==> !Referenced(s.meta, c.id))
    case OfMeta(op) =>
      match op
      case WriteSlice(_, _, slice) => SliceOk(s.cache, slice) && !Referenced(s.meta, slice.id)
      case ReplaceSlices(inode, chunk, slices) =>
        && |slices| == 1 && SliceOk(s.cache, slices[0]) && !Referenced(s.meta, slices[0].id)
        && SameOverlay(slices, ReadSlices(s.meta, inode, chunk), s.cache.truth)
      case _ => true
  }

  ghost predicate LegalSys(s: Sys, es: seq<SysEvent>) {
    es == [] ||
    (LegalSys(s, es[..|es| - 1]) && EnabledSys(RunSys(s, es[..|es| - 1]), es[|es| - 1]))
  }

  function RunSys(s: Sys, es: seq<SysEvent>): Sys {
    if es == [] then s else ApplySys(RunSys(s, es[..|es| - 1]), es[|es| - 1])
  }

  // ---- the invariant ----

  /** Every slice in the chunk table is sound, and no id occurs twice, in any chunk of any inode. */
  ghost predicate ChunksOk(m: MetaState, c: CacheState) {
    && (forall k, i | k in m.chunks && 0 <= i < |m.chunks[k]| :: SliceOk(c, m.chunks[k][i]))
    && (forall k, i, l, j | k in m.chunks && 0 <= i < |m.chunks[k]| && l in m.chunks && 0 <= j < |m.chunks[l]| &&
          m.chunks[k][i].id == m.chunks[l][j].id :: k == l && i == j)
  }

  /** Ids are issued by the persistent counter before they are written. */
  ghost predicate IdsIssued(m: MetaState, c: CacheState) {
    forall id | id in c.truth :: id < m.nextSlice
  }

  ghost predicate SysInv(s: Sys) {
    Inv(s.cache) && ChunksOk(s.meta, s.cache) && IdsIssued(s.meta, s.cache)
  }

  /** Write-once ids: every referenced id is below the counter, unique, and of the recorded length. */
  lemma WriteOnce(s: Sys, k: (nat, nat), i: nat)
    requires SysInv(s) && k in s.meta.chunks && i < |s.meta.chunks[k]|
    ensures var sl := s.meta.chunks[k][i];
            && sl.id < s.meta.nextSlice
            && sl.id in s.cache.truth && |s.cache.truth[sl.id]| == sl.length
            && sl.offset + sl.length <= CHUNK_SIZE
            && forall l, j | l in s.meta.chunks && 0 <= j < |s.meta.chunks[l]| && s.meta.chunks[l][j].id == sl.id ::
                 l == k && j == i
  {
    assert SliceOk(s.cache, s.meta.chunks[k][i]);
  }

  /** A new file system over an empty store, with a cache directory of the given size. */
  function FreshSystem(diskMax: nat): Sys {
    Sys(INITIAL, CacheState([], map[], map[], map[], map[], map[], map[], 0, diskMax, false, true, map[], {}))
  }

  lemma FreshInv(diskMax: nat)
    ensures SysInv(FreshSystem(diskMax)) && Accounted(FreshSystem(diskMax).cache)
  {
  }

  /** Every state of every run from a fresh file system, crashes included. */
  lemma ReachableSysInv(diskMax: nat, es: seq<SysEvent>)
    requires LegalSys(FreshSystem(diskMax), es)
    ensures SysInv(RunSys(FreshSystem(diskMax), es))
  {
    FreshInv(diskMax);
    RunSysKeepsInv(FreshSystem(diskMax), es);
  }

  lemma CacheEventKeepsSlices(s: Sys, e: Event)
    requires SysInv(s) && EnabledSys(s, OfCache(e))
    ensures ChunksOk(s.meta, Apply(s.cache, e)) && IdsIssued(s.meta, Apply(s.cache, e))
  {
    hide Inv, Run, Legal;
    var c, c' := s.cache, Apply(s.cache, e);
    forall k, i | k in s.meta.chunks && 0 <= i < |s.meta.chunks[k]| ensures SliceOk(c', s.meta.chunks[k][i]) {
      assert SliceOk(c, s.meta.chunks[k][i]);
      assert Referenced(s.meta, s.meta.chunks[k][i].id);
    }
  }

  lemma ChunkRowsAfter(m: MetaState, op: MetaOp)
    requires !op.WriteSlice? && !op.ReplaceSlices?
    ensures var m' := Perform(m, op).state;
            && (forall k | k in m'.chunks :: k in m.chunks && m'.chunks[k] == m.chunks[k])
            && m'.nextSlice >= m.nextSlice
  {
  }

  lemma SetRowKeepsSlices(s: Sys, key: (nat, nat), slices: seq<Slice>)
    requires SysInv(s)
    requires forall i | 0 <= i < |slices| ::
               && SliceOk(s.cache, slices[i])
               && ((key in s.meta.chunks && i < |s.meta.chunks[key]| && slices[i] == s.meta.chunks[key][i]) ||
                   !Referenced(s.meta, slices[i].id))
    requires forall i, j | 0 <= i < j < |slices| :: slices[i].id != slices[j].id
    ensures ChunksOk(s.meta.(chunks := s.meta.chunks[key := slices]), s.cache)
  {
    hide Inv;
    assert forall k, i | k in s.meta.chunks && 0 <= i < |s.meta.chunks[k]| ::
        Referenced(s.meta, s.meta.chunks[k][i].id);
  }

  lemma MetaEventKeepsSlices(s: Sys, op: MetaOp)
    requires SysInv(s) && EnabledSys(s, OfMeta(op))
    ensures SysInv(ApplySys(s, OfMeta(op)))
  {
    hide Inv, OverlayAt;
    match op
    case WriteSlice(inode, chunk, slice) =>
      var row := ReadSlices(s.meta, inode, chunk);
      forall i | 0 <= i < |row| ensures SliceOk(s.cache, row[i]) && row[i].id != slice.id {
        assert s.meta.chunks[(inode, chunk)][i] == row[i];
        assert Referenced(s.meta, row[i].id);
      }
      SetRowKeepsSlices(s, (inode, chunk), row + [slice]);
    case ReplaceSlices(inode, chunk, slices) => SetRowKeepsSlices(s, (inode, chunk), slices);
    case _ => ChunkRowsAfter(s.meta, op);
  }

  lemma SysEventKeepsInv(s: Sys, e: SysEvent)
    requires SysInv(s) && EnabledSys(s, e)
    ensures SysInv(ApplySys(s, e))
  {
    hide Inv, OverlayAt, ChunksOk, Perform, Apply, Enabled, IdsIssued;
    match e
    case OfCache(c) =>
      EventKeepsInv(s.cache, c);
      CacheEventKeepsSlices(s, c);
    case OfMeta(op) => MetaEventKeepsSlices(s, op);
  }

  lemma {:induction false} RunSysKeepsInv(s: Sys, es: seq<SysEvent>)
    requires SysInv(s) && LegalSys(s, es)
    ensures SysInv(RunSys(s, es))
    decreases |es|
  {
    hide SysInv, EnabledSys, ApplySys;
    if es == [] {
    } else {
      RunSysKeepsInv(s, es[..|es| - 1]);
      SysEventKeepsInv(RunSys(s, es[..|es| - 1]), es[|es| - 1]);
    }
  }

  lemma {:induction false} PrefixLegalSys(s: Sys, es: seq<SysEvent>, k: nat)
    requires LegalSys(s, es) && k <= |es|
    ensures LegalSys(s, es[..k])
    decreases |es|
  {
    hide EnabledSys, ApplySys;
    if k == |es| {
      assert es[..k] == es;
    } else {
      PrefixLegalSys(s, es[..|es| - 1], k);
      assert es[..|es| - 1][..k] == es[..k];
    }
  }

  lemma ExtendSys(s: Sys, es: seq<SysEvent>, e: SysEvent)
    requires LegalSys(s, es) && EnabledSys(RunSys(s, es), e)
    ensures LegalSys(s, es + [e]) && RunSys(s, es + [e]) == ApplySys(RunSys(s, es), e)
  {
    assert (es + [e])[..|es|] == es;
  }

  lemma {:induction false} ConcatSys(s: Sys, a: seq<SysEvent>, b: seq<SysEvent>)
    requires LegalSys(s, a) && LegalSys(RunSys(s, a), b)
    ensures LegalSys(s, a + b) && RunSys(s, a + b) == RunSys(RunSys(s, a), b)
    decreases |b|
  {
    hide EnabledSys, ApplySys;
    if b == [] {
      assert a + b == a;
    } else {
      var b' := b[..|b| - 1];
      ConcatSys(s, a, b');
      ExtendSys(s, a + b', b[|b| - 1]);
      assert a + b == (a + b') + [b[|b| - 1]];
    }
  }

  // ---- contents ----

  /** Byte `i` of a file as its metadata says: its slices overlaid, each with the bytes written to it. */
  function Content(s: Sys, inode: nat, i: nat): byte {
    FileByte(s.meta, s.cache.truth, inode, i)
  }

  ghost predicate SameContents(s: Sys, t: Sys) {
    forall inode, i: nat :: Content(t, inode, i) == Content(s, inode, i)
  }

  /** Neither writes to a file nor drops one. */
  predicate KeepsFiles(e: SysEvent) {
    e.OfMeta? ==> !e.op.WriteSlice? && !e.op.Forget?
  }

  /** Rows of slices that are live read the same in any store that agrees with the truth. */
  lemma RowAgrees(s: Sys, data: Store, inode: nat, chunk: nat, off: nat)
    requires SysInv(s)
    requires forall id | id in s.cache.live :: id in s.cache.truth && id in data && data[id] == s.cache.truth[id]
    ensures OverlayAt(ReadSlices(s.meta, inode, chunk), data, off)
         == OverlayAt(ReadSlices(s.meta, inode, chunk), s.cache.truth, off)
  {
    hide Inv;
    var row := ReadSlices(s.meta, inode, chunk);
    forall sl | sl in row ensures SliceOk(s.cache, sl) {
      var i :| 0 <= i < |row| && row[i] == sl;
      assert s.meta.chunks[(inode, chunk)][i] == sl;
    }
    OverlayAgree(row, data, s.cache.truth, off);
  }

  lemma CacheEventKeepsContents(s: Sys, e: Event)
    requires SysInv(s) && EnabledSys(s, OfCache(e))
    ensures SameContents(s, ApplySys(s, OfCache(e)))
  {
    assert s.cache.live <= s.cache.truth.Keys;
    hide Apply, Enabled, OverlayAt, ChunksOk, AllAgree;
    TruthOnlyGrows(s.cache, e);
    forall inode, i: nat ensures Content(ApplySys(s, OfCache(e)), inode, i) == Content(s, inode, i) {
      RowAgrees(s, Apply(s.cache, e).truth, inode, ChunkIndex(i), i % CHUNK_SIZE);
    }
  }

  lemma MetaEventKeepsContents(s: Sys, op: MetaOp)
    requires EnabledSys(s, OfMeta(op)) && KeepsFiles(OfMeta(op))
    ensures SameContents(s, ApplySys(s, OfMeta(op)))
  {
    hide OverlayAt, SliceOk, Referenced;
    var m' := Perform(s.meta, op).state;
    if op.ReplaceSlices? {
      forall inode, i: nat ensures Content(ApplySys(s, OfMeta(op)), inode, i) == Content(s, inode, i) {
      }
    } else {
      assert m'.chunks == s.meta.chunks;
    }
  }

  /** No crash, flush, eviction, replay, namespace operation or compaction changes what any file holds. */
  lemma {:induction false} QuietRunKeepsContents(s: Sys, es: seq<SysEvent>)
    requires SysInv(s) && LegalSys(s, es) && forall e | e in es :: KeepsFiles(e)
    ensures SameContents(s, RunSys(s, es))
    decreases |es|
  {
    hide EnabledSys, ApplySys, SysInv, Content, KeepsFiles;
    if es == [] {
    } else {
      var front, last := es[..|es| - 1], es[|es| - 1];
      assert forall e | e in front :: e in es;
      QuietRunKeepsContents(s, front);
      RunSysKeepsInv(s, front);
      SysEventKeepsContents(RunSys(s, front), last);
    }
  }

  lemma SysEventKeepsContents(s: Sys, e: SysEvent)
    requires SysInv(s) && EnabledSys(s, e) && KeepsFiles(e)
    ensures SameContents(s, ApplySys(s, e))
  {
    if e.OfCache? {
      CacheEventKeepsContents(s, e.e);
    } else {
      MetaEventKeepsContents(s, e.op);
    }
  }

  /** A slice appended to a chunk changes exactly its own window of one file. */
  lemma WriteSliceContent(s: Sys, inode: nat, chunk: nat, slice: Slice, n: nat, i: nat)
    requires EnabledSys(s, OfMeta(WriteSlice(inode, chunk, slice)))
    ensures var t := ApplySys(s, OfMeta(WriteSlice(inode, chunk, slice)));
            Content(t, n, i) ==
            if n == inode && ChunkIndex(i) == chunk && slice.offset <= i % CHUNK_SIZE < slice.offset + slice.length
            then s.cache.truth[slice.id][i % CHUNK_SIZE - slice.offset]
            else Content(s, n, i)
  {
    OverlaySnoc(ReadSlices(s.meta, inode, chunk), slice, s.cache.truth, i % CHUNK_SIZE);
  }

  // ---- what readers see, and what survives ----

  /** All tiers seen at once, in the order `read_slice` looks: dirty over L1 over L2 over the backend. */
  function Tiers(c: CacheState): Store { c.backend + c.l2 + c.l1 + c.dirty }

  lemma TiersIsLookup(c: CacheState, id: nat)
    ensures Lookup(c, id) == if id in Tiers(c) then Some(Tiers(c)[id]) else None
  {
  }

  /** In a running system, overlaying what the tiers hold gives every file its contents. */
  lemma TiersHoldContents(s: Sys, inode: nat, i: nat)
    requires SysInv(s) && s.cache.mounted && s.cache.inflight == map[]
    ensures FileByte(s.meta, Tiers(s.cache), inode, i) == Content(s, inode, i)
  {
    hide ChunksOk, OverlayAt, Inv;
    forall id | id in s.cache.live
      ensures id in s.cache.truth && id in Tiers(s.cache) && Tiers(s.cache)[id] == s.cache.truth[id]
    {
      LookupIsTruth(s.cache, id);
      TiersIsLookup(s.cache, id);
    }
    RowAgrees(s, Tiers(s.cache), inode, ChunkIndex(i), i % CHUNK_SIZE);
  }

  /** With nothing left to flush, the backend alone gives every file its contents. */
  lemma BackendHoldsContents(s: Sys, inode: nat, i: nat)
    requires SysInv(s) && s.cache.mounted && s.cache.inflight == map[] && s.cache.dirty == map[]
    ensures FileByte(s.meta, s.cache.backend, inode, i) == Content(s, inode, i)
  {
    hide ChunksOk, OverlayAt;
    RowAgrees(s, s.cache.backend, inode, ChunkIndex(i), i % CHUNK_SIZE);
  }

  /** The process dies in `s`, perhaps inside a log append; `c` is what starts again. */
  ghost predicate CrashesTo(s: Sys, torn: Bytes, c: Sys) {
    EnabledSys(s, OfCache(Crash(torn))) && c == ApplySys(s, OfCache(Crash(torn)))
  }

  /** Any legal run that writes and drops no file and ends mounted, with no flush under way. There is one
      only over a log that can be recovered from: of others replay would bring misread records back. */
  ghost predicate RecoversTo(c: Sys, recovery: seq<SysEvent>, t: Sys) {
    && LegalSys(c, recovery) && t == RunSys(c, recovery)
    && (forall e | e in recovery :: KeepsFiles(e))
    && t.cache.mounted && t.cache.inflight == map[]
  }

  /** Crash recovery, for every run and every point in it. `es` may itself contain crashes and
      recoveries. After a crash behind its first `k` events, and any recovery, the tiers give every
      file exactly the bytes its metadata had at the crash. */
  lemma CrashRecovery(s0: Sys, es: seq<SysEvent>, k: nat, torn: Bytes, c: Sys, recovery: seq<SysEvent>, t: Sys)
    requires SysInv(s0) && LegalSys(s0, es) && k <= |es|
    requires CrashesTo(RunSys(s0, es[..k]), torn, c) && RecoversTo(c, recovery, t)
    ensures forall inode, i: nat ::
              FileByte(t.meta, Tiers(t.cache), inode, i) == Content(RunSys(s0, es[..k]), inode, i)
  {
    hide EnabledSys, SysInv, Content, FileByte, Tiers;
    var s := RunSys(s0, es[..k]);
    PrefixLegalSys(s0, es, k);
    RunSysKeepsInv(s0, es[..k]);
    SysEventKeepsInv(s, OfCache(Crash(torn)));
    SysEventKeepsContents(s, OfCache(Crash(torn)));
    RunSysKeepsInv(c, recovery);
    QuietRunKeepsContents(c, recovery);
    forall inode, i: nat ensures FileByte(t.meta, Tiers(t.cache), inode, i) == Content(s, inode, i) {
      TiersHoldContents(t, inode, i);
    }
  }

  /** What the crash leaves on disk covers every referenced slice, in the backend or in the log, if no
      record was appended behind a torn tail. */
  lemma CrashCovered(s: Sys, torn: Bytes, k: (nat, nat), i: nat)
    requires SysInv(s) && EnabledSys(s, OfCache(Crash(torn))) && Apply(s.cache, Crash(torn)).sound
    requires k in s.meta.chunks && i < |s.meta.chunks[k]|
    ensures var id := s.meta.chunks[k][i].id;
            var c := Apply(s.cache, Crash(torn));
            && (id in c.backend || Logged(c, id, s.cache.truth[id]))
            && (id in c.backend ==> c.backend[id] == s.cache.truth[id])
            && (forall data :: Logged(c, id, data) ==> data == s.cache.truth[id])
            && (id in c.l2 ==> c.l2[id] == s.cache.truth[id])
  {
    hide ChunksOk, Enabled;
    assert SliceOk(s.cache, s.meta.chunks[k][i]) by { WriteOnceSlice(s, k, i); }
    SysEventKeepsInv(s, OfCache(Crash(torn)));
  }

  lemma WriteOnceSlice(s: Sys, k: (nat, nat), i: nat)
    requires SysInv(s) && k in s.meta.chunks && i < |s.meta.chunks[k]|
    ensures SliceOk(s.cache, s.meta.chunks[k][i])
  {
  }
}
