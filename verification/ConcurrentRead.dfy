/** Reads that are not atomic: between any two of their steps other callers write, flush, evict and compact. */
module ConcurrentRead {
  import opened Types
  import opened MetaModel
  import opened WriteAheadLog
  import opened CacheModel
  import opened Overlay
  import opened System
  import opened SystemRuns
  import opened FileHistory

  /** The system after the first `k` events of a run. */
  function StateAt(s: Sys, es: seq<SysEvent>, k: nat): Sys
    requires k <= |es|
  {
    RunSys(s, es[..k])
  }

  /** When the four look-ups of one slice happen, counted in events gone by. */
  datatype Looks = Looks(dirty: nat, l1: nat, l2: nat, backend: nat)

  predicate InTurn(es: seq<SysEvent>, from: nat, at: Looks) {
    from <= at.dirty <= at.l1 <= at.l2 <= at.backend <= |es|
  }

  /** The first tier that has the id when it is looked into; nothing if a healthy backend has not got it. */
  function Answer(s: Sys, es: seq<SysEvent>, at: Looks, id: nat): Option<Bytes>
    requires InTurn(es, 0, at)
  {
    var c1, c2 := StateAt(s, es, at.dirty).cache, StateAt(s, es, at.l1).cache;
    var c3, c4 := StateAt(s, es, at.l2).cache, StateAt(s, es, at.backend).cache;
    if id in c1.dirty then Some(c1.dirty[id])
    else if id in c2.l1 then Some(c2.l1[id])
    else if id in c3.l2 then Some(c3.l2[id])
    else if id in c4.backend then Some(c4.backend[id])
    else None
  }

  /** With all four at one instant the answer is the look-up of CacheModel. */
  lemma AnswerAtOnce(s: Sys, es: seq<SysEvent>, k: nat, id: nat)
    requires k <= |es|
    ensures Answer(s, es, Looks(k, k, k, k), id) == Lookup(StateAt(s, es, k).cache, id)
  {
  }

  lemma StateKept(s: Sys, es: seq<SysEvent>, k: nat)
    requires SysInv(s) && LegalSys(s, es) && k <= |es|
    ensures SysInv(StateAt(s, es, k))
  {
    hide SysInv, EnabledSys, ApplySys;
    PrefixLegalSys(s, es, k);
    RunSysKeepsInv(s, es[..k]);
  }

  /** What happens between two instants. */
  lemma NextState(s: Sys, es: seq<SysEvent>, k: nat)
    requires LegalSys(s, es) && k < |es|
    ensures EnabledSys(StateAt(s, es, k), es[k]) && StateAt(s, es, k + 1) == ApplySys(StateAt(s, es, k), es[k])
  {
    hide EnabledSys, ApplySys;
    PrefixLegalSys(s, es, k + 1);
    assert es[..k + 1][..k] == es[..k];
  }

  lemma {:induction false} TruthStays(s: Sys, es: seq<SysEvent>, j: nat, k: nat, id: nat)
    requires LegalSys(s, es) && j <= k <= |es| && id in StateAt(s, es, j).cache.truth
    ensures id in StateAt(s, es, k).cache.truth
    ensures StateAt(s, es, k).cache.truth[id] == StateAt(s, es, j).cache.truth[id]
    decreases k - j
  {
    hide EnabledSys, Enabled, Apply, StateAt;
    if j == k {
    } else {
      TruthStays(s, es, j, k - 1, id);
      NextState(s, es, k - 1);
      OneStepTruth(StateAt(s, es, k - 1), es[k - 1]);
    }
  }

  lemma OneStepTruth(s: Sys, e: SysEvent)
    requires EnabledSys(s, e)
    ensures forall id | id in s.cache.truth ::
              id in ApplySys(s, e).cache.truth && ApplySys(s, e).cache.truth[id] == s.cache.truth[id]
  {
    hide Enabled, Apply;
    if e.OfCache? {
      TruthOnlyGrows(s.cache, e.e);
    }
  }

  /** Whenever the look-ups happen, what they find is what was written. */
  lemma AnswerIsTruth(s: Sys, es: seq<SysEvent>, at: Looks, id: nat)
    requires SysInv(s) && LegalSys(s, es) && InTurn(es, 0, at) && Answer(s, es, at, id).Some?
    ensures id in RunSys(s, es).cache.truth && Answer(s, es, at, id).value == RunSys(s, es).cache.truth[id]
  {
    hide SysInv, EnabledSys, ApplySys, StateAt;
    var k := if id in StateAt(s, es, at.dirty).cache.dirty then at.dirty
             else if id in StateAt(s, es, at.l1).cache.l1 then at.l1
             else if id in StateAt(s, es, at.l2).cache.l2 then at.l2
             else at.backend;
    StateKept(s, es, k);
    FoundIsTruth(StateAt(s, es, k), id);
    TruthStays(s, es, k, |es|, id);
    LastState(s, es);
  }

  lemma LastState(s: Sys, es: seq<SysEvent>)
    ensures StateAt(s, es, |es|) == RunSys(s, es)
  {
    assert es[..|es|] == es;
  }

  lemma FoundIsTruth(s: Sys, id: nat)
    requires SysInv(s)
    ensures id in s.cache.dirty ==> id in s.cache.truth && s.cache.truth[id] == s.cache.dirty[id]
    ensures id in s.cache.l1 ==> id in s.cache.truth && s.cache.truth[id] == s.cache.l1[id]
    ensures id in s.cache.l2 ==> id in s.cache.truth && s.cache.truth[id] == s.cache.l2[id]
    ensures id in s.cache.backend ==> id in s.cache.truth && s.cache.truth[id] == s.cache.backend[id]
  {
    hide ChunksOk, LogAgrees, DurablyCovered, Pending;
  }

  // ---- when a slice is missed ----

  /** The id is owed to readers at every instant from `j` to `k`. */
  ghost predicate LiveThrough(s: Sys, es: seq<SysEvent>, id: nat, j: nat, k: nat)
    requires j <= k <= |es|
  {
    forall m | j <= m <= k :: id in StateAt(s, es, m).cache.live
  }

  lemma {:induction false} BackendStays(s: Sys, es: seq<SysEvent>, id: nat, j: nat, k: nat)
    requires LegalSys(s, es) && j <= k <= |es| && LiveThrough(s, es, id, j, k)
    requires id in StateAt(s, es, j).cache.backend
    ensures id in StateAt(s, es, k).cache.backend
    decreases k - j
  {
    hide EnabledSys, Enabled, Apply, StateAt;
    if j == k {
    } else {
      BackendStays(s, es, id, j, k - 1);
      NextState(s, es, k - 1);
      OneStepBackend(StateAt(s, es, k - 1), es[k - 1], id);
    }
  }

  lemma OneStepBackend(s: Sys, e: SysEvent, id: nat)
    requires EnabledSys(s, e) && id in s.cache.live && id in s.cache.backend
    ensures id in ApplySys(s, e).cache.backend
  {
    if e.OfCache? {
      assert e.e.DropBackend? ==> e.e.id !in s.cache.live;
      hide Enabled, EnabledSys;
      BackendKept(s.cache, e.e, id);
    }
  }

  lemma BackendKept(c: CacheState, e: Event, id: nat)
    requires id in c.live && id in c.backend && (e.DropBackend? ==> e.id !in c.live)
    ensures id in Apply(c, e).backend
  {
    hide Aligned, Encode;
  }

  /** A live slice is missed exactly if, when the dirty set was looked into, a flush had it in hand, and by
      the time the backend was asked it was not there; every cached copy being gone when looked for. */
  lemma MissIff(s: Sys, es: seq<SysEvent>, at: Looks, id: nat)
    requires SysInv(s) && LegalSys(s, es) && InTurn(es, 0, at)
    requires LiveThrough(s, es, id, at.dirty, at.backend) && StateAt(s, es, at.dirty).cache.mounted
    ensures Answer(s, es, at, id) == None <==>
            && id in StateAt(s, es, at.dirty).cache.inflight && id !in StateAt(s, es, at.dirty).cache.dirty
            && id !in StateAt(s, es, at.l1).cache.l1 && id !in StateAt(s, es, at.l2).cache.l2
            && id !in StateAt(s, es, at.backend).cache.backend
  {
    hide SysInv, EnabledSys, ApplySys, StateAt;
    var c := StateAt(s, es, at.dirty);
    StateKept(s, es, at.dirty);
    OwedSomewhere(c, id);
    if id in c.cache.backend {
      BackendStays(s, es, id, at.dirty, at.backend);
    }
  }

  /** A read can miss a slice that at every single instant some tier of the cache has: it looks into the dirty
      set while a flush has the slice in hand and L1 a copy, then the PUT fails and the slice goes back to the
      dirty set, then L1 drops it. */
  lemma MissedThoughHeld(s: Sys, id: nat)
    requires id in s.cache.inflight && id !in s.cache.dirty && id in s.cache.l1
    requires id !in s.cache.l2 && id !in s.cache.backend
    ensures var es := [OfCache(Retry(id)), OfCache(Evict({id}))];
            && LegalSys(s, es) && AllKeepFiles(es) && InTurn(es, 0, Looks(0, 2, 2, 2))
            && Answer(s, es, Looks(0, 2, 2, 2), id) == None
            && forall k | 0 <= k <= 2 :: Held(StateAt(s, es, k).cache, id)
  {
    var e1, e2 := OfCache(Retry(id)), OfCache(Evict({id}));
    var es := [e1, e2];
    ExtendSys(s, [], e1);
    assert [] + [e1] == [e1];
    ExtendSys(s, [e1], e2);
    assert [e1] + [e2] == es;
    assert es[..0] == [] && es[..1] == [e1] && es[..2] == es;
    var s1 := ApplySys(s, e1);
    assert RunSys(s, es[..1]) == s1 && RunSys(s, es[..2]) == ApplySys(s1, e2);
  }

  lemma OwedSomewhere(s: Sys, id: nat)
    requires SysInv(s) && s.cache.mounted && id in s.cache.live
    ensures id in s.cache.backend || id in s.cache.dirty || id in s.cache.inflight
  {
  }

  // ---- reading a chunk ----

  /** The row is read at one instant, its slices are looked up one after the other behind it. */
  datatype ChunkRead = ChunkRead(row: nat, looks: seq<Looks>)

  predicate Reads(s: Sys, es: seq<SysEvent>, inode: nat, chunk: nat, r: ChunkRead) {
    && r.row <= |es|
    && |r.looks| == |RowOf(s, es, inode, chunk, r)|
    && (forall j | 0 <= j < |r.looks| :: InTurn(es, r.row, r.looks[j]))
    && (forall j | 0 < j < |r.looks| :: r.looks[j - 1].backend <= r.looks[j].dirty)
  }

  function RowOf(s: Sys, es: seq<SysEvent>, inode: nat, chunk: nat, r: ChunkRead): seq<Slice>
    requires r.row <= |es|
  {
    ReadSlices(StateAt(s, es, r.row).meta, inode, chunk)
  }

  /** No look-up came back empty. */
  predicate Complete(s: Sys, es: seq<SysEvent>, inode: nat, chunk: nat, r: ChunkRead)
    requires Reads(s, es, inode, chunk, r)
  {
    forall j | 0 <= j < |r.looks| :: Answer(s, es, r.looks[j], RowOf(s, es, inode, chunk, r)[j].id).Some?
  }

  /** The byte at `off` once the first `n` answers have been copied into the buffer. */
  function Assembled(s: Sys, es: seq<SysEvent>, inode: nat, chunk: nat, r: ChunkRead, n: nat, off: nat): byte
    requires Reads(s, es, inode, chunk, r) && Complete(s, es, inode, chunk, r) && n <= |r.looks|
  {
    if n == 0 then 0
    else
      var slice := RowOf(s, es, inode, chunk, r)[n - 1];
      var data := Answer(s, es, r.looks[n - 1], slice.id).value;
      if slice.offset <= off < slice.offset + Min(|data|, slice.length) then data[off - slice.offset]
      else Assembled(s, es, inode, chunk, r, n - 1, off)
  }

  lemma {:induction false} AssembledIsOverlay(s: Sys, es: seq<SysEvent>, inode: nat, chunk: nat, r: ChunkRead,
                                              n: nat, off: nat)
    requires SysInv(s) && LegalSys(s, es)
    requires Reads(s, es, inode, chunk, r) && Complete(s, es, inode, chunk, r) && n <= |r.looks|
    ensures Assembled(s, es, inode, chunk, r, n, off)
         == OverlayAt(RowOf(s, es, inode, chunk, r)[..n], RunSys(s, es).cache.truth, off)
    decreases n
  {
    hide SysInv, EnabledSys, ApplySys, StateAt, Answer;
    var row := RowOf(s, es, inode, chunk, r);
    if n == 0 {
      assert row[..0] == [];
    } else {
      AssembledIsOverlay(s, es, inode, chunk, r, n - 1, off);
      AnswerIsTruth(s, es, r.looks[n - 1], row[n - 1].id);
      assert row[..n][..n - 1] == row[..n - 1];
    }
  }

  /** Whatever goes on beside it, a chunk read that misses nothing yields the bytes the chunk had at the
      instant its row was read; not even a compaction that deletes the slices meanwhile changes that. */
  lemma ChunkReadIsContent(s: Sys, es: seq<SysEvent>, inode: nat, r: ChunkRead, i: nat)
    requires SysInv(s) && LegalSys(s, es)
    requires Reads(s, es, inode, ChunkIndex(i), r) && Complete(s, es, inode, ChunkIndex(i), r)
    ensures Assembled(s, es, inode, ChunkIndex(i), r, |r.looks|, i % CHUNK_SIZE)
         == Content(StateAt(s, es, r.row), inode, i)
  {
    hide SysInv, EnabledSys, ApplySys, StateAt, Complete, OverlayAt;
    var chunk, row := ChunkIndex(i), RowOf(s, es, inode, ChunkIndex(i), r);
    AssembledIsOverlay(s, es, inode, chunk, r, |r.looks|, i % CHUNK_SIZE);
    assert row[..|r.looks|] == row;
    RowTruthStays(s, es, inode, chunk, r.row);
    OverlayAgree(row, RunSys(s, es).cache.truth, StateAt(s, es, r.row).cache.truth, i % CHUNK_SIZE);
  }

  lemma RowTruthStays(s: Sys, es: seq<SysEvent>, inode: nat, chunk: nat, k: nat)
    requires SysInv(s) && LegalSys(s, es) && k <= |es|
    ensures forall sl | sl in ReadSlices(StateAt(s, es, k).meta, inode, chunk) ::
              && sl.id in StateAt(s, es, k).cache.truth && sl.id in RunSys(s, es).cache.truth
              && RunSys(s, es).cache.truth[sl.id] == StateAt(s, es, k).cache.truth[sl.id]
  {
    hide SysInv, EnabledSys, ApplySys, StateAt;
    StateKept(s, es, k);
    LastState(s, es);
    forall sl | sl in ReadSlices(StateAt(s, es, k).meta, inode, chunk)
      ensures sl.id in StateAt(s, es, k).cache.truth && sl.id in RunSys(s, es).cache.truth
      ensures RunSys(s, es).cache.truth[sl.id] == StateAt(s, es, k).cache.truth[sl.id]
    {
      RowWritten(StateAt(s, es, k), inode, chunk, sl);
      TruthStays(s, es, k, |es|, sl.id);
    }
  }

  lemma RowWritten(s: Sys, inode: nat, chunk: nat, sl: Slice)
    requires SysInv(s) && sl in ReadSlices(s.meta, inode, chunk)
    ensures sl.id in s.cache.truth
  {
    hide Inv;
    var i :| 0 <= i < |s.meta.chunks[(inode, chunk)]| && s.meta.chunks[(inode, chunk)][i] == sl;
    WriteOnceSlice(s, (inode, chunk), i);
  }

  // ---- reading a range ----

  /** One chunk read for every 64 MiB block of the range, at the file offsets `pos / CHUNK_SIZE`. */
  ghost predicate RangeRead(s: Sys, es: seq<SysEvent>, inode: nat, offset: nat, end: nat, plan: map<nat, ChunkRead>) {
    forall i: nat | offset <= i < end ::
      && i / CHUNK_SIZE in plan
      && Reads(s, es, inode, ChunkIndex(i), plan[i / CHUNK_SIZE])
      && Complete(s, es, inode, ChunkIndex(i), plan[i / CHUNK_SIZE])
  }

  ghost function RangeByte(s: Sys, es: seq<SysEvent>, inode: nat, plan: map<nat, ChunkRead>, i: nat): byte
    requires i / CHUNK_SIZE in plan
    requires Reads(s, es, inode, ChunkIndex(i), plan[i / CHUNK_SIZE])
    requires Complete(s, es, inode, ChunkIndex(i), plan[i / CHUNK_SIZE])
  {
    var r := plan[i / CHUNK_SIZE];
    Assembled(s, es, inode, ChunkIndex(i), r, |r.looks|, i % CHUNK_SIZE)
  }

  /** A read beside anything at all: each byte was in the file at some instant during the read. */
  lemma ReadBesideAnything(s: Sys, es: seq<SysEvent>, inode: nat, offset: nat, end: nat,
                           plan: map<nat, ChunkRead>, i: nat)
    requires SysInv(s) && LegalSys(s, es) && RangeRead(s, es, inode, offset, end, plan) && offset <= i < end
    ensures exists k | 0 <= k <= |es| :: RangeByte(s, es, inode, plan, i) == Content(StateAt(s, es, k), inode, i)
  {
    hide SysInv, EnabledSys, ApplySys, StateAt, Content, Assembled, Complete;
    ChunkReadIsContent(s, es, inode, plan[i / CHUNK_SIZE], i);
    assert RangeByte(s, es, inode, plan, i) == Content(StateAt(s, es, plan[i / CHUNK_SIZE].row), inode, i);
  }

  /** Beside flushes, evictions, compactions, namespace operations and other reads, whenever they happen: the
      bytes of the file, as they are before and after. */
  lemma ReadBesideCompaction(s: Sys, es: seq<SysEvent>, inode: nat, offset: nat, end: nat,
                             plan: map<nat, ChunkRead>, i: nat)
    requires SysInv(s) && LegalSys(s, es) && AllKeepFiles(es)
    requires RangeRead(s, es, inode, offset, end, plan) && offset <= i < end
    ensures RangeByte(s, es, inode, plan, i) == Content(s, inode, i) == Content(RunSys(s, es), inode, i)
  {
    hide SysInv, EnabledSys, ApplySys, Content, Assembled, Complete, KeepsFiles;
    ChunkReadIsContent(s, es, inode, plan[i / CHUNK_SIZE], i);
    NeverDiffers(s, es, plan[i / CHUNK_SIZE].row);
    NeverDiffers(s, es, |es|);
    assert es[..|es|] == es;
  }
}
