/** Reads, writes and compaction of the posix mode. */
module VirtualFs {
  import opened Types
  import opened WriteAheadLog
  import opened MetaModel
  import opened RedbEngine
  import opened CacheModel
  import opened DataEngines
  import opened TieredCaches
  import opened Overlay
  import opened System
  import opened SystemRuns
  import opened FileHistory
  import opened SliceKey

  datatype VfsError = Meta(meta: MetaError) | Data(data: DataError) | Invalid

  /** What a read is measured by: the cache, the calls of the backend and the inserts into L1 so far. */
  datatype Gauge = Gauge(c: CacheState, calls: nat, inserts: nat)

  /** Why a slice could not be read: no tier of the cache has it, and the last call of the backend failed, or
      did not find it while a flush has it in hand. */
  ghost predicate Refused(e: DataError, c: CacheState, id: nat, last: Option<Fault>) {
    && !Held(c, id)
    && (if last.Some? then e == Backend
        else e == DataError.NotFound(BackendKey(id)) && id in c.inflight && id !in c.backend)
  }

  /** In the dirty set or in L2, where a read finds it whatever L1 drops. */
  predicate Firm(c: CacheState, id: nat) { id in c.dirty || id in c.l2 }

  /** In the dirty set or in L1, where a read finds it without changing anything. */
  predicate Near(c: CacheState, id: nat) { id in c.dirty || id in c.l1 }

  /** Between `a` and `b` a read failed: it called the backend, and the last call refused it a slice with one
      of these ids. If the cache held that slice before, then in L1 alone, which has dropped it since. */
  ghost predicate GaveUp(e: DataError, ids: iset<nat>, a: Gauge, b: Gauge, evicts: nat -> set<nat>,
                         faults: nat -> Option<Fault>) {
    && a.calls < b.calls
    && exists id | id in ids ::
         && Refused(e, b.c, id, faults(b.calls - 1))
         && (Held(a.c, id) ==> !Firm(a.c, id) && exists n | a.inserts <= n < b.inserts :: id in evicts(n))
  }

  /** Between `a` and `b` slices with these ids were read. What the cache held it still holds, but for what L1
      dropped at its inserts; if all were firm, or all near, nobody called the backend. */
  ghost predicate Frugal(ids: iset<nat>, a: Gauge, b: Gauge, evicts: nat -> set<nat>) {
    && a.calls <= b.calls && HeldOn(a.c, b.c, evicts, a.inserts, b.inserts)
    && ((forall id | id in ids :: Firm(a.c, id)) ==> b.calls == a.calls)
    && ((forall id | id in ids :: Near(a.c, id)) ==> b == a)
  }

  lemma FrugalStart(ids: iset<nat>, a: Gauge, evicts: nat -> set<nat>)
    ensures Frugal(ids, a, a, evicts)
  {
  }

  lemma FrugalThen(ids: iset<nat>, a: Gauge, b: Gauge, some: iset<nat>, c: Gauge, evicts: nat -> set<nat>)
    requires Frugal(ids, a, b, evicts) && Frugal(some, b, c, evicts) && some <= ids
    ensures Frugal(ids, a, c, evicts)
  {
    HeldOnAfter(a.c, b.c, c.c, evicts, a.inserts, b.inserts, c.inserts);
    if forall id | id in ids :: Firm(a.c, id) {
      assert forall id | id in some :: Firm(b.c, id);
    }
  }

  lemma GaveUpSince(e: DataError, ids: iset<nat>, a: Gauge, b: Gauge, some: iset<nat>, c: Gauge,
                    evicts: nat -> set<nat>, faults: nat -> Option<Fault>)
    requires Frugal(ids, a, b, evicts) && Frugal(some, b, c, evicts) && some <= ids
    requires GaveUp(e, some, b, c, evicts, faults)
    ensures GaveUp(e, ids, a, c, evicts, faults)
  {
    hide *;
    FrugalThen(ids, a, b, some, c, evicts);
    FrugalHeld(ids, a, b, evicts);
    FrugalHeld(ids, a, c, evicts);
    var id := RefusedId(e, some, b, c, evicts, faults);
    LostSince(a, c, evicts, id);
    GaveUpOn(e, ids, a, c, evicts, faults, id);
  }

  lemma FrugalHeld(ids: iset<nat>, a: Gauge, b: Gauge, evicts: nat -> set<nat>)
    requires Frugal(ids, a, b, evicts)
    ensures a.calls <= b.calls && HeldOn(a.c, b.c, evicts, a.inserts, b.inserts)
  {
  }

  lemma RefusedId(e: DataError, ids: iset<nat>, a: Gauge, b: Gauge, evicts: nat -> set<nat>,
                  faults: nat -> Option<Fault>) returns (id: nat)
    requires GaveUp(e, ids, a, b, evicts, faults)
    ensures a.calls < b.calls && id in ids && Refused(e, b.c, id, faults(b.calls - 1)) && !Held(b.c, id)
  {
    id :| id in ids && Refused(e, b.c, id, faults(b.calls - 1));
  }

  lemma LostSince(a: Gauge, c: Gauge, evicts: nat -> set<nat>, id: nat)
    requires HeldOn(a.c, c.c, evicts, a.inserts, c.inserts) && !Held(c.c, id)
    ensures Held(a.c, id) ==> !Firm(a.c, id) && exists n | a.inserts <= n < c.inserts :: id in evicts(n)
  {
  }

  lemma GaveUpOn(e: DataError, ids: iset<nat>, a: Gauge, b: Gauge, evicts: nat -> set<nat>,
                 faults: nat -> Option<Fault>, id: nat)
    requires a.calls < b.calls && id in ids && Refused(e, b.c, id, faults(b.calls - 1))
    requires Held(a.c, id) ==> !Firm(a.c, id) && exists n | a.inserts <= n < b.inserts :: id in evicts(n)
    ensures GaveUp(e, ids, a, b, evicts, faults)
  {
    hide Refused, Held, Firm;
  }

  /** So a read of firm slices, or of near ones, or over a backend that works with no flush under way,
      does not fail. */
  lemma NotGivenUp(e: DataError, ids: iset<nat>, a: Gauge, b: Gauge, evicts: nat -> set<nat>,
                   faults: nat -> Option<Fault>)
    requires Frugal(ids, a, b, evicts)
    requires || (forall id | id in ids :: Firm(a.c, id)) || (forall id | id in ids :: Near(a.c, id))
             || (b.c.inflight == map[] && forall n | a.calls <= n < b.calls :: faults(n).None?)
    ensures !GaveUp(e, ids, a, b, evicts, faults)
  {
  }

  /** How a read of these slices may end: with an error only if it gave up, so never if all slices are firm, or
      all near, when it asks nobody, nor over a backend that works while no flush is under way. */
  ghost predicate ReadTold(r: Result<Bytes, VfsError>, ids: iset<nat>, a: Gauge, b: Gauge, evicts: nat -> set<nat>,
                           faults: nat -> Option<Fault>) {
    && Frugal(ids, a, b, evicts)
    && (r.Err? ==> r.error.Data? && GaveUp(r.error.data, ids, a, b, evicts, faults))
    && ((forall id | id in ids :: Firm(a.c, id)) ==> r.Ok? && b.calls == a.calls)
    && ((forall id | id in ids :: Near(a.c, id)) ==> r.Ok? && b == a)
    && (b.c.inflight == map[] && (forall n | a.calls <= n < b.calls :: faults(n).None?) ==> r.Ok?)
  }

  function IdsOf(slices: seq<Slice>): (ids: iset<nat>)
    ensures forall sl | sl in slices :: sl.id in ids
  {
    iset sl | sl in slices :: sl.id
  }

  /** The slices a read of these bytes looks up. */
  ghost function IdsIn(m: MetaState, inode: nat, offset: nat, end: nat): iset<nat> {
    iset pos, id | offset <= pos < end && id in IdsOf(ReadSlices(m, inode, ChunkIndex(pos))) :: id
  }

  class Vfs {
    const meta: RedbMetaEngine
    const cache: TieredCache
    var dirtyInodes: set<nat>

    ghost function View(): Sys
      reads meta, cache, cache.wal`file, cache.inner`objects, cache.inner`slices
    {
      Sys(meta.View(), cache.View())
    }

    /** A mounted file system, perhaps with a flush under way. */
    ghost predicate Running()
      reads meta, cache, cache.wal`file, cache.inner`objects, cache.inner`slices
    {
      cache.Running() && SysInv(View())
    }

    /** ... and none under way. */
    ghost predicate Valid()
      reads meta, cache, cache.wal`file, cache.inner`objects, cache.inner`slices
    {
      Running() && cache.inflight == map[]
    }

    constructor (meta: RedbMetaEngine, cache: TieredCache)
      ensures this.meta == meta && this.cache == cache && dirtyInodes == {}
    {
      this.meta := meta;
      this.cache := cache;
      dirtyInodes := {};
    }

    ghost function Measured(): Gauge
      reads cache, cache.wal`file, cache.inner`slices, cache.inner`calls
    {
      Gauge(cache.View(), cache.inner.calls, cache.inserts)
    }

    method ReadCached(id: nat) returns (r: Result<Bytes, DataError>, ghost es: seq<SysEvent>)
      requires Running() && id in cache.live
      modifies cache`l1, cache`inserts, cache`files, cache`disk, cache`diskUsed, cache`diskCalls, cache.inner`calls
      ensures Running() && Performs(old(View()), es, View()) && AllKeepFiles(es)
      ensures r.Ok? ==> id in cache.truth && r.value == cache.truth[id]
      ensures r.Err? ==>
                GaveUp(r.error, iset{id}, old(Measured()), Measured(), cache.around.evicts, cache.inner.faults)
      ensures Frugal(iset{id}, old(Measured()), Measured(), cache.around.evicts)
    {
      hide SysInv, Inv, DiskValid, Mirrors, Legal, Run, LegalSys, RunSys, Lookup, HeldOn;
      ghost var s, before := View(), Measured();
      var answer, ces := cache.ReadSlice(id);
      CacheRun(s, ces);
      r, es := answer, Lift(ces);
      ReadOnce(id, r, before, Measured(), cache.around.evicts, cache.inner.faults);
    }

    /** One of the reads of slices `ids` that began at `before`. */
    method ReadNext(id: nat, ghost ids: iset<nat>, ghost before: Gauge)
      returns (r: Result<Bytes, DataError>, ghost es: seq<SysEvent>)
      requires Running() && id in cache.live && id in ids && Frugal(ids, before, Measured(), cache.around.evicts)
      modifies cache`l1, cache`inserts, cache`files, cache`disk, cache`diskUsed, cache`diskCalls, cache.inner`calls
      ensures Running() && Performs(old(View()), es, View()) && AllKeepFiles(es)
      ensures r.Ok? ==> id in cache.truth && r.value == cache.truth[id]
      ensures r.Err? ==> GaveUp(r.error, ids, before, Measured(), cache.around.evicts, cache.inner.faults)
      ensures Frugal(ids, before, Measured(), cache.around.evicts)
    {
      hide SysInv, Performs, Frugal, GaveUp, Measured, Inv, Mirrors, DiskValid;
      ghost var middle := Measured();
      r, es := ReadCached(id);
      FrugalThen(ids, before, middle, iset{id}, Measured(), cache.around.evicts);
      if r.Err? {
        GaveUpSince(r.error, ids, before, middle, iset{id}, Measured(), cache.around.evicts, cache.inner.faults);
      }
    }

    /** A read with no flush under way fails only if the backend does. */
    method ReadSettled(id: nat) returns (r: Result<Bytes, DataError>, ghost es: seq<SysEvent>)
      requires Valid() && id in cache.live
      modifies cache`l1, cache`inserts, cache`files, cache`disk, cache`diskUsed, cache`diskCalls, cache.inner`calls
      ensures Valid() && Performs(old(View()), es, View()) && AllKeepFiles(es)
      ensures r.Ok? ==> id in cache.truth && r.value == cache.truth[id]
      ensures r.Err? ==> r.error == Backend && !cache.inner.WorkedFor(old(cache.inner.calls), cache.inner.calls)
      ensures old(cache.inner.calls) <= cache.inner.calls
    {
      hide SysInv, Performs, HeldOn, Inv, Mirrors, DiskValid, Held, Firm, Near, OverlayAt;
      r, es := ReadCached(id);
      cache.Fields();
    }

    /** `copy_from_slice`: the bytes of a slice that starts at `start`, for offsets `from` to `to`. */
    method CopyInto(buf: array<byte>, from: nat, to: nat, data: Bytes, start: nat)
      requires start <= from <= to <= buf.Length && to - start <= |data|
      modifies buf
      ensures forall k | 0 <= k < buf.Length :: buf[k] == if from <= k < to then data[k - start] else old(buf[k])
    {
      forall k | from <= k < to {
        buf[k] := data[k - start];
      }
    }

    /** Those bytes of a slice that lie between `lo` and `hi`. */
    method CopyWindow(buf: array<byte>, slice: Slice, data: Bytes, lo: nat, hi: nat)
      requires lo <= hi == buf.Length && |data| == slice.length
      modifies buf
      ensures forall k | lo <= k < hi ::
                buf[k] == if slice.offset <= k < slice.offset + slice.length then data[k - slice.offset]
                          else old(buf[k])
    {
      var start := slice.offset;
      var end := start + Min(|data|, slice.length);
      var copyStart := Max(start, lo);
      var copyEnd := Min(end, hi);
      if copyStart < copyEnd {
        CopyInto(buf, copyStart, copyEnd, data, start);
      }
    }

    /** The chunk buffer up to `hi`, correct from `lo` on. */
    method OverlayChunk(slices: seq<Slice>, lo: nat, hi: nat)
      returns (r: Result<Bytes, DataError>, ghost es: seq<SysEvent>)
      requires Running() && lo <= hi
      requires forall s | s in slices :: SliceOk(cache.View(), s)
      modifies cache`l1, cache`inserts, cache`files, cache`disk, cache`diskUsed, cache`diskCalls, cache.inner`calls
      ensures Running() && Performs(old(View()), es, View()) && AllKeepFiles(es)
      ensures r.Ok? ==> |r.value| == hi - lo
      ensures r.Ok? ==> forall k | lo <= k < hi :: r.value[k - lo] == OverlayAt(slices, cache.truth, k)
      ensures r.Err? ==>
                GaveUp(r.error, IdsOf(slices), old(Measured()), Measured(), cache.around.evicts, cache.inner.faults)
      ensures Frugal(IdsOf(slices), old(Measured()), Measured(), cache.around.evicts)
    {
      hide SysInv, Inv, DiskValid, Mirrors, Performs, OverlayAt, Lookup, Frugal, GaveUp, Measured, IdsOf,
        TieredCache.View, View, Running, AllKeepFiles, Covers;
      ghost var s, before := View(), Measured();
      cache.Fields();
      FrugalStart(IdsOf(slices), before, cache.around.evicts);
      var chunkBuf := new byte[hi](_ => 0);
      es := [];
      NoStep(s);
      EmptyOverlay(cache.truth);
      assert slices[..0] == [];
      for n := 0 to |slices|
        invariant Running() && Performs(s, es, View()) && AllKeepFiles(es)
        invariant forall k | lo <= k < hi :: chunkBuf[k] == OverlayAt(slices[..n], cache.truth, k)
        invariant Frugal(IdsOf(slices), before, Measured(), cache.around.evicts)
      {
        ghost var t := View();
        cache.Fields();
        var laid, es1 := OverlayNext(chunkBuf, slices, n, lo, before);
        ThenSys(s, es, t, es1, View());
        es := es + es1;
        if laid.Err? {
          return Err(laid.error), es;
        }
      }
      assert slices[..|slices|] == slices;
      return Ok(chunkBuf[lo..hi]), es;
    }

    /** One slice of the chunk, read and laid over those before it. */
    method OverlayNext(buf: array<byte>, slices: seq<Slice>, n: nat, lo: nat, ghost before: Gauge)
      returns (r: Result<(), DataError>, ghost es: seq<SysEvent>)
      requires Running() && lo <= buf.Length && n < |slices|
      requires forall s | s in slices :: SliceOk(cache.View(), s)
      requires forall k | lo <= k < buf.Length :: buf[k] == OverlayAt(slices[..n], cache.truth, k)
      requires Frugal(IdsOf(slices), before, Measured(), cache.around.evicts)
      modifies buf
      modifies cache`l1, cache`inserts, cache`files, cache`disk, cache`diskUsed, cache`diskCalls, cache.inner`calls
      ensures Running() && Performs(old(View()), es, View()) && AllKeepFiles(es)
      ensures r.Ok? ==> forall k | lo <= k < buf.Length :: buf[k] == OverlayAt(slices[..n + 1], cache.truth, k)
      ensures r.Err? ==>
                GaveUp(r.error, IdsOf(slices), before, Measured(), cache.around.evicts, cache.inner.faults)
      ensures Frugal(IdsOf(slices), before, Measured(), cache.around.evicts)
    {
      hide SysInv, Inv, DiskValid, Mirrors, Performs, OverlayAt, Lookup, Frugal, GaveUp, Measured, IdsOf,
        TieredCache.View, View, Running, AllKeepFiles;
      cache.Fields();
      var slice := slices[n];
      assert slice in slices;
      var data, es1 := ReadNext(slice.id, IdsOf(slices), before);
      es := es1;
      if data.Err? {
        return Err(data.error), es;
      }
      ghost var laid := buf[..];
      CopyWindow(buf, slice, data.value, lo, buf.Length);
      LaidOver(laid, buf[..], slices, n, cache.truth, lo);
      return Ok(()), es;
    }

    /** The bytes of the file from `offset`, cut at the file's size, with holes as zeros. */
    method Read(inode: nat, offset: nat, size: nat) returns (r: Result<Bytes, VfsError>, ghost es: seq<SysEvent>)
      requires Running()
      modifies cache`l1, cache`inserts, cache`files, cache`disk, cache`diskUsed, cache`diskCalls, cache.inner`calls
      ensures Running() && Performs(old(View()), es, View()) && AllKeepFiles(es)
      ensures var attr := MetaModel.GetAttr(meta.View(), inode);
              && (attr.Err? ==> r == Err(Meta(MetaError.NotFound)) && Measured() == old(Measured()))
              && (attr.Ok? && attr.value.kind != Regular ==> r == Err(Invalid) && Measured() == old(Measured()))
              && (attr.Ok? && attr.value.kind == Regular ==>
                    && (offset >= attr.value.size ==> r == Ok([]) && Measured() == old(Measured()))
                    && (offset < attr.value.size ==>
                          var end := Min(offset + size, attr.value.size);
                          && (r.Ok? ==> r.value == Visible(FileOf(old(View()), inode))[offset..end])
                          && ReadTold(r, IdsIn(meta.View(), inode, offset, end), old(Measured()), Measured(),
                                      cache.around.evicts, cache.inner.faults)))
    {
      hide SysInv, Inv, DiskValid, Mirrors, Performs, OverlayAt, Lookup, Frugal, GaveUp, Measured, IdsOf,
        IdsIn, HeldOn, ReadTold, Content, Visible, FileOf;
      ghost var s, before := View(), Measured();
      es := [];
      NoStep(s);
      var attr := meta.GetAttr(inode);
      if attr.Err? {
        return Err(Meta(attr.error)), es;
      }
      if attr.value.kind != Regular {
        return Err(Invalid), es;
      }
      if offset >= attr.value.size {
        return Ok([]), es;
      }
      var end := Min(offset + size, attr.value.size);
      var result: Bytes := [];
      var pos := offset;
      ghost var ids := IdsIn(meta.View(), inode, offset, end);
      FrugalStart(ids, before, cache.around.evicts);
      while pos < end
        invariant offset <= pos <= end
        invariant Running() && Performs(s, es, View()) && AllKeepFiles(es)
        invariant |result| == pos - offset && Frugal(ids, before, Measured(), cache.around.evicts)
        invariant forall k | 0 <= k < |result| :: result[k] == Content(s, inode, offset + k)
      {
        ghost var t, middle := View(), Measured();
        var bytesInChunk := Min(CHUNK_SIZE - pos % CHUNK_SIZE, end - pos);
        var chunk, es1 := ReadChunk(inode, pos, bytesInChunk);
        ThenSys(s, es, t, es1, View());
        es := es + es1;
        ghost var row := IdsOf(ReadSlices(meta.View(), inode, ChunkIndex(pos)));
        RowInRange(meta.View(), inode, offset, end, pos);
        FrugalThen(ids, before, middle, row, Measured(), cache.around.evicts);
        if chunk.Err? {
          GaveUpSince(chunk.error, ids, before, middle, row, Measured(), cache.around.evicts, cache.inner.faults);
          ErrorTold(chunk.error, ids, before, Measured(), cache.around.evicts, cache.inner.faults);
          return Err(Data(chunk.error)), es;
        }
        SameBytes(s, t);
        result := result + chunk.value;
        pos := pos + bytesInChunk;
      }
      RangeOfFile(s, inode, offset, end, result);
      OkTold(result, ids, before, Measured(), cache.around.evicts, cache.inner.faults);
      return Ok(result), es;
    }

    /** The part of a read that lies in one chunk. */
    method ReadChunk(inode: nat, pos: nat, n: nat) returns (r: Result<Bytes, DataError>, ghost es: seq<SysEvent>)
      requires Running() && pos % CHUNK_SIZE + n <= CHUNK_SIZE
      modifies cache`l1, cache`inserts, cache`files, cache`disk, cache`diskUsed, cache`diskCalls, cache.inner`calls
      ensures Running() && Performs(old(View()), es, View()) && AllKeepFiles(es)
      ensures r.Ok? ==> |r.value| == n && forall k | 0 <= k < n :: r.value[k] == Content(old(View()), inode, pos + k)
      ensures var ids := IdsOf(ReadSlices(meta.View(), inode, ChunkIndex(pos)));
              && Frugal(ids, old(Measured()), Measured(), cache.around.evicts)
              && (r.Err? ==>
                    GaveUp(r.error, ids, old(Measured()), Measured(), cache.around.evicts, cache.inner.faults))
    {
      hide SysInv, Inv, DiskValid, Mirrors, Performs, OverlayAt, Lookup, Frugal, GaveUp, Measured, IdsOf;
      ghost var t := View();
      var chunkIdx := (pos / CHUNK_SIZE) % U32;
      var chunkOffset := pos % CHUNK_SIZE;
      var slices := meta.ReadSlices(inode, chunkIdx);
      RowIsSound(t, inode, chunkIdx);
      var bufEnd := chunkOffset + n;
      r, es := OverlayChunk(slices, chunkOffset, bufEnd);
      if r.Ok? {
        forall k | 0 <= k < n ensures r.value[k] == Content(t, inode, pos + k) {
          WithinChunk(pos, k);
          assert r.value[chunkOffset + k - chunkOffset] == OverlayAt(slices, cache.truth, chunkOffset + k);
        }
      }
    }

    /** One piece of a write: a fresh id, the bytes to the cache, then the slice to its chunk. */
    method WritePiece(inode: nat, pos: nat, piece: Bytes) returns (ghost es: seq<SysEvent>)
      requires Valid() && meta.nextSlice < MAX_IDS
      requires piece != [] && pos % CHUNK_SIZE + |piece| <= CHUNK_SIZE
      modifies meta`chunks, meta`nextSlice, cache, cache.wal
      ensures Valid() && Performs(old(View()), es, View())
      ensures old(cache.LogWhole()) && cache.wal.Reliable() ==> cache.LogWhole()
      ensures meta.nextSlice == old(meta.nextSlice) + 1
      ensures AllTorn(old(View()), es, inode, pos, piece)
      ensures CutAfter(old(View()), View(), inode, pos, piece, |piece|)
      ensures forall k | k in meta.chunks :: k in old(meta.chunks) || k.0 == inode
    {
      hide SysInv, Inv, DiskValid, Mirrors, Performs, OverlayAt, Content, ParseAll, Aligned, Encode, Does,
        AllTorn, CutAfter, Enabled, EnabledSys;
      ghost var s := View();
      var chunkIdx := (pos / CHUNK_SIZE) % U32;
      var id := meta.NextSliceId();
      FreshId(s);
      var ces := cache.WriteSlice(id, piece);
      ghost var s2 := View();
      PieceCached(s, id, piece, ces, s2);
      var slice := Slice(id, pos % CHUNK_SIZE, |piece|);
      meta.WriteSlice(inode, chunkIdx, slice);
      assert View() == ApplySys(s2, OfMeta(WriteSlice(inode, chunkIdx, slice)));
      es := PieceWritten(s, [OfMeta(NextSlice)] + Lift(ces), s2, inode, pos, piece, id);
    }

    /** Splits the range at chunk boundaries, one slice per piece, in order. */
    method WritePieces(inode: nat, offset: nat, data: Bytes) returns (written: nat, ghost es: seq<SysEvent>)
      requires Valid() && meta.nextSlice + |data| <= MAX_IDS
      requires |data| <= MAX_OFFSET
      modifies meta`chunks, meta`nextSlice, cache, cache.wal
      ensures Valid() && Performs(old(View()), es, View())
      ensures old(cache.LogWhole()) && cache.wal.Reliable() ==> cache.LogWhole()
      ensures AllTorn(old(View()), es, inode, offset, data)
      ensures written == |data| && CutAfter(old(View()), View(), inode, offset, data, written)
    {
      hide SysInv, Inv, DiskValid, Mirrors, Performs, OverlayAt, Content, ParseAll, Aligned, AllTorn, TornInside,
        CutAfter, PieceEnd;
      ghost var s := View();
      es := [];
      NoStep(s);
      NothingTorn(s, inode, offset, data);
      written := 0;
      var pos := offset;
      while written < |data|
        invariant 0 <= written <= |data| && pos == offset + written
        invariant Valid() && Performs(s, es, View())
        invariant old(cache.LogWhole()) && cache.wal.Reliable() ==> cache.LogWhole()
        invariant meta.nextSlice <= s.meta.nextSlice + written
        invariant meta.nodes == s.meta.nodes
        invariant AllTorn(s, es, inode, offset, data)
        invariant PieceEnd(offset, |data|, written) && CutAfter(s, View(), inode, offset, data, written)
      {
        ghost var t := View();
        var chunkOffset := pos % CHUNK_SIZE;
        var bytesInChunk := Min(CHUNK_SIZE - chunkOffset, |data| - written);
        var piece := data[written..written + bytesInChunk];
        var es1 := WritePiece(inode, pos, piece);
        es := NextPiece(s, es, t, es1, View(), inode, offset, data, written, piece);
        written := written + bytesInChunk;
        pos := pos + bytesInChunk;
      }
    }

    /** Stores the pieces, and then grows the size. */
    method Write(inode: nat, offset: nat, data: Bytes) returns (r: Result<nat, VfsError>, ghost es: seq<SysEvent>)
      requires Valid() && meta.nextSlice + |data| <= MAX_IDS
      requires |data| <= MAX_OFFSET
      modifies this`dirtyInodes, meta`chunks, meta`nextSlice, meta`nodes, cache, cache.wal
      ensures Valid() && Performs(old(View()), es, View())
      ensures old(cache.LogWhole()) && cache.wal.Reliable() ==> cache.LogWhole()
      ensures var attr := old(MetaModel.GetAttr(meta.View(), inode));
              && (attr.Err? ==> r == Err(Meta(MetaError.NotFound)))
              && (attr.Ok? && attr.value.kind != Regular ==> r == Err(Invalid))
              && (r.Err? ==> View() == old(View()))
              && (attr.Ok? && attr.value.kind == Regular ==>
                    && r == Ok(|data| % U32)
                    && dirtyInodes == old(dirtyInodes) + {inode}
                    && meta.nodes ==
                         DoSetSize(old(meta.View()), inode, Max(attr.value.size, offset + |data|)).state.nodes
                    && Overlaid(old(View()), View(), inode, offset, data, |data|)
                    && (offset + |data| <= MAX_OFFSET ==> Did(old(View()), View(), inode, WriteAt(offset, data)))
                    && (forall n | n in old(meta.nodes) && n != inode :: Did(old(View()), View(), n, Other)))
      ensures TornInside(old(View()), es, inode, offset, data)
    {
      hide SysInv, Inv, DiskValid, Mirrors, Performs, OverlayAt, Content, ParseAll, Aligned, AllTorn, TornInside,
        CutAfter, PieceEnd, SameContents, Did;
      ghost var s := View();
      es := [];
      NoStep(s);
      NothingTorn(s, inode, offset, data);
      var attr := meta.GetAttr(inode);
      if attr.Err? {
        return Err(Meta(attr.error)), es;
      }
      if attr.value.kind != Regular {
        return Err(Invalid), es;
      }
      dirtyInodes := dirtyInodes + {inode};
      var written, es1 := WritePieces(inode, offset, data);
      es := es1;
      var newSize := Max(attr.value.size, offset + |data|);
      ghost var t1 := View();
      SameSame(t1);
      NotYetSized(s, es, inode, offset, data);
      if newSize != attr.value.size {
        var reply := meta.SetSize(inode, newSize);
        assert View() == ApplySys(t1, OfMeta(MetaOp.SetSize(inode, newSize)));
        es := SizeSet(s, es, t1, inode, offset, data, newSize);
      }
      WriteDone(s, t1, View(), inode, offset, data);
      return Ok(written % U32), es;
    }

    /** `set_attr` with a size: the slices stay, so a shrink hides bytes without dropping them. */
    method SetSize(inode: nat, size: nat) returns (r: Result<Attr, VfsError>, ghost es: seq<SysEvent>)
      requires Valid()
      modifies meta`nodes
      ensures Valid() && Performs(old(View()), es, View()) && AllKeepFiles(es)
      ensures inode !in old(meta.nodes) ==> r == Err(Meta(MetaError.NotFound)) && View() == old(View())
      ensures inode in old(meta.nodes) ==> r.Ok? && Did(old(View()), View(), inode, Resize(size))
      ensures forall n | n in old(meta.nodes) && n != inode :: Did(old(View()), View(), n, Other)
    {
      hide SysInv, Inv, DiskValid, Mirrors, Performs, OverlayAt, Content, ParseAll;
      ghost var s := View();
      var reply := meta.SetSize(inode, size);
      assert View() == ApplySys(s, OfMeta(MetaOp.SetSize(inode, size)));
      MetaStep(s, MetaOp.SetSize(inode, size));
      MetaEventKeepsContents(s, MetaOp.SetSize(inode, size));
      es := [OfMeta(MetaOp.SetSize(inode, size))];
      return if reply.Found? then Ok(reply.attr) else Err(Meta(MetaError.NotFound)), es;
    }

    method FurthestEnd(slices: seq<Slice>) returns (maxEnd: nat)
      ensures maxEnd == MaxEnd(slices)
    {
      maxEnd := 0;
      assert slices[..0] == [];
      for n := 0 to |slices|
        invariant maxEnd == MaxEnd(slices[..n])
      {
        maxEnd := Max(maxEnd, slices[n].offset + slices[n].length);
        assert slices[..n + 1][..n] == slices[..n];
      }
      assert slices[..|slices|] == slices;
    }

    /** The merged bytes of a chunk: its slices laid into one zeroed buffer. */
    method MergeSlices(slices: seq<Slice>) returns (r: Result<Bytes, DataError>, ghost es: seq<SysEvent>)
      requires Valid()
      requires forall s | s in slices :: SliceOk(cache.View(), s)
      modifies cache`l1, cache`inserts, cache`files, cache`disk, cache`diskUsed, cache`diskCalls, cache.inner`calls
      ensures Valid() && Performs(old(View()), es, View()) && AllKeepFiles(es)
      ensures r.Ok? ==> |r.value| == MaxEnd(slices)
      ensures r.Ok? ==> forall k | 0 <= k < |r.value| :: r.value[k] == OverlayAt(slices, cache.truth, k)
      ensures r.Err? ==> r.error == Backend && !cache.inner.WorkedFor(old(cache.inner.calls), cache.inner.calls)
      ensures old(cache.inner.calls) <= cache.inner.calls
    {
      hide SysInv, Inv, DiskValid, Mirrors, Performs, OverlayAt, Lookup, MaxEnd, TieredCache.View, View, Valid;
      ghost var s := View();
      es := [];
      NoStep(s);
      cache.Fields();
      var maxEnd := FurthestEnd(slices);
      var buf := new byte[maxEnd](_ => 0);
      EmptyOverlay(cache.truth);
      assert slices[..0] == [];
      for n := 0 to |slices|
        invariant Valid() && Performs(s, es, View()) && AllKeepFiles(es)
        invariant forall k | 0 <= k < maxEnd :: buf[k] == OverlayAt(slices[..n], cache.truth, k)
        invariant old(cache.inner.calls) <= cache.inner.calls
      {
        ghost var t := View();
        var slice := slices[n];
        assert slice in slices;
        EndsBelow(slices, n);
        var data, es1 := ReadSettled(slice.id);
        ThenSys(s, es, t, es1, View());
        es := es + es1;
        if data.Err? {
          return Err(data.error), es;
        }
        var start := slice.offset;
        var len := Min(|data.value|, slice.length);
        ghost var laid := buf[..];
        CopyInto(buf, start, start + len, data.value, start);
        LaidOver(laid, buf[..], slices, n, cache.truth, 0);
      }
      assert slices[..|slices|] == slices;
      return Ok(buf[..]), es;
    }

    /** Merge, swap the row, then delete the old slices one by one. */
    method CompactChunk(inode: nat, chunkIdx: nat, slices: seq<Slice>)
      returns (r: Result<(), DataError>, ghost es: seq<SysEvent>)
      requires Valid() && meta.nextSlice < MAX_IDS
      requires (inode, chunkIdx) in meta.chunks && meta.chunks[(inode, chunkIdx)] == slices
      modifies meta`chunks, meta`nextSlice, cache, cache.wal, cache.inner
      ensures Valid() && Performs(old(View()), es, View()) && AllKeepFiles(es)
      ensures old(cache.LogWhole()) && cache.wal.Reliable() ==> cache.LogWhole()
      ensures meta.nextSlice <= old(meta.nextSlice) + 1
      ensures r.Err? ==> r.error == Backend && meta.chunks == old(meta.chunks)
      ensures r.Err? ==> !cache.inner.WorkedFor(old(cache.inner.calls), cache.inner.calls)
      ensures r.Ok? && cache.inner.WorkedFor(old(cache.inner.calls), cache.inner.calls) ==>
                AllDead(slices, cache.Stored())
      ensures forall id | id in cache.Stored() :: id in old(cache.Stored()) || id >= old(meta.nextSlice)
      ensures old(cache.inner.calls) <= cache.inner.calls
      ensures r.Ok? ==> meta.chunks.Keys == old(meta.chunks).Keys && |meta.chunks[(inode, chunkIdx)]| == 1
      ensures forall k | k in old(meta.chunks) && k != (inode, chunkIdx) ::
                k in meta.chunks && meta.chunks[k] == old(meta.chunks)[k]
      ensures r.Ok? ==> AllDead(slices, cache.live)
      ensures forall id | id in cache.live :: id in old(cache.live) || id >= old(meta.nextSlice)
      ensures meta.nextSlice >= old(meta.nextSlice)
    {
      hide SysInv, Inv, DiskValid, Mirrors, Performs, OverlayAt, Content, ParseAll, Aligned,
        Encode, Does, Referenced, SliceOk, TieredCache.View, TieredCache.Stored, AllDead;
      ghost var s := View();
      RowIsSound(s, inode, chunkIdx);
      MergedFits(s, slices);
      var merged, es0 := MergeSlices(slices);
      es := es0;
      if merged.Err? {
        return Err(merged.error), es;
      }
      ghost var s0 := View();
      var es1 := SwapRow(inode, chunkIdx, slices, merged.value);
      ThenSys(s, es, s0, es1, View());
      es := es + es1;
      ghost var s1 := View();
      var es2 := DeleteSlices(slices);
      ThenSys(s, es, s1, es2, View());
      es := es + es2;
      return Ok(()), es;
    }

    /** Stores the merged bytes under a fresh id and makes them the chunk's only slice. */
    method SwapRow(inode: nat, chunkIdx: nat, slices: seq<Slice>, merged: Bytes)
      returns (ghost es: seq<SysEvent>)
      requires Valid() && meta.nextSlice < MAX_IDS
      requires (inode, chunkIdx) in meta.chunks && meta.chunks[(inode, chunkIdx)] == slices
      requires |merged| == MaxEnd(slices) <= CHUNK_SIZE
      requires forall k | 0 <= k < |merged| :: merged[k] == OverlayAt(slices, cache.truth, k)
      modifies meta`chunks, meta`nextSlice, cache, cache.wal
      ensures Valid() && Performs(old(View()), es, View()) && AllKeepFiles(es)
      ensures old(cache.LogWhole()) && cache.wal.Reliable() ==> cache.LogWhole()
      ensures meta.nextSlice == old(meta.nextSlice) + 1
      ensures exists id :: meta.chunks == old(meta.chunks)[(inode, chunkIdx) := [Slice(id, 0, |merged|)]]
      ensures forall s | s in slices :: !Referenced(meta.View(), s.id)
      ensures cache.live == old(cache.live) + {old(meta.nextSlice)}
      ensures cache.Stored() == old(cache.Stored()) + {old(meta.nextSlice)}
    {
      hide SysInv, Inv, DiskValid, Mirrors, Performs, OverlayAt, Content, ParseAll, Aligned,
        Encode, Does, Enabled, EnabledSys, Referenced;
      ghost var s := View();
      var mergedId := meta.NextSliceId();
      FreshId(s);
      var ces := cache.WriteSlice(mergedId, merged);
      ghost var s2 := View();
      PieceCached(s, mergedId, merged, ces, s2);
      var slice := Slice(mergedId, 0, |merged|);
      meta.ReplaceSlices(inode, chunkIdx, [slice]);
      assert View() == ApplySys(s2, OfMeta(ReplaceSlices(inode, chunkIdx, [slice])));
      es := RowSwapped(s, [OfMeta(NextSlice)] + Lift(ces), s2, inode, chunkIdx, slices, merged, mergedId);
    }

    method DeleteSlices(slices: seq<Slice>) returns (ghost es: seq<SysEvent>)
      requires Valid() && forall s | s in slices :: !Referenced(meta.View(), s.id)
      modifies cache, cache.inner
      ensures Valid() && Performs(old(View()), es, View()) && AllKeepFiles(es)
      ensures AllDead(slices, cache.live) && cache.live <= old(cache.live)
      ensures cache.LogWhole() == old(cache.LogWhole())
      ensures AllDead(slices, cache.dirtyData.Keys)
      ensures cache.Stored() <= old(cache.Stored()) && old(cache.inner.calls) <= cache.inner.calls
      ensures cache.inner.WorkedFor(old(cache.inner.calls), cache.inner.calls) ==> AllDead(slices, cache.Stored())
    {
      hide SysInv, Inv, DiskValid, Mirrors, Performs, OverlayAt, Content, ParseAll, Aligned, Encode, Referenced,
        TieredCache.View, TieredCache.Stored;
      ghost var s := View();
      es := [];
      NoStep(s);
      for n := 0 to |slices|
        invariant Valid() && Performs(s, es, View()) && AllKeepFiles(es)
        invariant cache.live <= old(cache.live) && cache.LogWhole() == old(cache.LogWhole())
        invariant AllDead(slices[..n], cache.live) && AllDead(slices[..n], cache.dirtyData.Keys)
        invariant cache.Stored() <= old(cache.Stored()) && old(cache.inner.calls) <= cache.inner.calls
        invariant cache.inner.WorkedFor(old(cache.inner.calls), cache.inner.calls) ==>
                    AllDead(slices[..n], cache.Stored())
      {
        ghost var t := View();
        assert slices[n] in slices;
        var ces := cache.DeleteSlice(slices[n].id);
        CacheRun(t, ces);
        ThenSys(s, es, t, Lift(ces), View());
        es := es + Lift(ces);
        assert slices[..n + 1] == slices[..n] + [slices[n]];
      }
      assert slices[..|slices|] == slices;
    }

    /** Compacts every chunk of the inode and flushes everything. Whatever fails on the way, no file
        of any inode reads differently, at no point in between. On success each chunk of the inode
        has at most one slice, the backend alone holds every file, and the log is empty. */
    method CompactAndFlush(inode: nat) returns (r: Result<(), VfsError>, ghost es: seq<SysEvent>)
      requires Valid() && meta.nextSlice + |meta.chunks| <= MAX_IDS
      modifies this`dirtyInodes, meta`chunks, meta`nextSlice, cache, cache.wal, cache.inner
      ensures Valid() && Performs(old(View()), es, View()) && AllKeepFiles(es)
      ensures old(cache.LogWhole()) && cache.wal.Reliable() ==> cache.LogWhole()
      ensures SameContents(old(View()), View())
      ensures forall n | n in old(meta.nodes) :: Did(old(View()), View(), n, Other)
      ensures dirtyInodes == old(dirtyInodes) - {inode}
      ensures r.Err? ==> r.error == Data(Backend) && !cache.inner.WorkedFor(old(cache.inner.calls), cache.inner.calls)
      ensures r.Ok? ==> forall k | k in meta.chunks && k.0 == inode :: |meta.chunks[k]| <= 1
      ensures forall k | k in meta.chunks :: forall sl | sl in meta.chunks[k] :: sl.offset + sl.length <= CHUNK_SIZE
      ensures r.Ok? ==> forall k | k in old(meta.chunks) && k.0 == inode && |old(meta.chunks)[k]| > 1 ::
                          AllDead(old(meta.chunks)[k], cache.live)
      ensures cache.inner.WorkedFor(old(cache.inner.calls), cache.inner.calls) ==>
                forall k | k in old(meta.chunks) && k.0 == inode && |old(meta.chunks)[k]| > 1 ::
                  AllDead(old(meta.chunks)[k], cache.inner.slices.Keys)
      ensures r.Ok? ==> forall n, i: nat :: FileByte(meta.View(), cache.inner.slices, n, i) == Content(View(), n, i)
      ensures r.Ok? && cache.wal.Reliable() ==> cache.wal.file == []
      ensures forall k | k in old(meta.chunks) && k.0 != inode ::
                k in meta.chunks && meta.chunks[k] == old(meta.chunks)[k]
    {
      hide SysInv, Inv, DiskValid, Mirrors, Performs, OverlayAt, Content, ParseAll, Aligned,
        Encode, SameContents, FileByte;
      ghost var s := View();
      dirtyInodes := dirtyInodes - {inode};
      var rows := meta.GetChunksForInode(inode);
      RowsAreKeys(rows, meta.chunks, inode);
      var compacted, es0 := CompactRows(inode, rows);
      es := es0;
      ghost var t := View();
      if compacted.Err? {
        ContentsKept(s, es, t);
        NothingDone(s, t);
        AllWithinChunk(t);
        return Err(Data(compacted.error)), es;
      }
      var flushed, es1 := Flush();
      ThenSys(s, es, t, es1, View());
      es := es + es1;
      ContentsKept(s, es, View());
      NothingDone(s, View());
      AllWithinChunk(View());
      return flushed, es;
    }

    method CompactRows(inode: nat, rows: seq<(nat, seq<Slice>)>)
      returns (r: Result<(), DataError>, ghost es: seq<SysEvent>)
      requires Valid() && meta.nextSlice + |rows| <= MAX_IDS
      requires forall i | 0 <= i < |rows| ::
                 (inode, rows[i].0) in meta.chunks && meta.chunks[(inode, rows[i].0)] == rows[i].1
      requires forall i, j | 0 <= i < j < |rows| :: rows[i].0 != rows[j].0
      modifies meta`chunks, meta`nextSlice, cache, cache.wal, cache.inner
      ensures Valid() && Performs(old(View()), es, View()) && AllKeepFiles(es)
      ensures old(cache.LogWhole()) && cache.wal.Reliable() ==> cache.LogWhole()
      ensures r.Err? ==> r.error == Backend && !cache.inner.WorkedFor(old(cache.inner.calls), cache.inner.calls)
      ensures old(cache.inner.calls) <= cache.inner.calls
      ensures r.Ok? && cache.inner.WorkedFor(old(cache.inner.calls), cache.inner.calls) ==>
                RowsDead(rows, |rows|, cache.Stored())
      ensures old(meta.nextSlice) <= meta.nextSlice <= old(meta.nextSlice) + |rows|
      ensures meta.chunks.Keys == old(meta.chunks).Keys
      ensures r.Ok? ==> forall j | 0 <= j < |rows| :: |meta.chunks[(inode, rows[j].0)]| <= 1
      ensures r.Ok? ==> RowsDead(rows, |rows|, cache.live)
      ensures forall k | k in old(meta.chunks) && k.0 != inode :: meta.chunks[k] == old(meta.chunks)[k]
    {
      hide SysInv, Inv, DiskValid, Mirrors, Performs, OverlayAt, Content, ParseAll, Aligned, Encode,
        TieredCache.View, TieredCache.Stored, RowsDead, AllDead;
      ghost var s := View();
      es := [];
      NoStep(s);
      NoRowsDead(rows);
      for n := 0 to |rows|
        invariant Valid() && Performs(s, es, View()) && AllKeepFiles(es)
        invariant old(cache.LogWhole()) && cache.wal.Reliable() ==> cache.LogWhole()
        invariant meta.nextSlice <= s.meta.nextSlice + n && meta.chunks.Keys == s.meta.chunks.Keys
        invariant forall j | n <= j < |rows| :: meta.chunks[(inode, rows[j].0)] == rows[j].1
        invariant forall j | 0 <= j < n :: |meta.chunks[(inode, rows[j].0)]| <= 1
        invariant forall k | k in s.meta.chunks && k.0 != inode :: meta.chunks[k] == s.meta.chunks[k]
        invariant meta.nextSlice >= s.meta.nextSlice
        invariant RowsDead(rows, n, cache.live)
        invariant old(cache.inner.calls) <= cache.inner.calls
        invariant cache.inner.WorkedFor(old(cache.inner.calls), cache.inner.calls) ==>
                    RowsDead(rows, n, cache.Stored())
      {
        var chunkIdx, slices := rows[n].0, rows[n].1;
        NextDead(rows, n);
        if |slices| <= 1 {
          continue;
        }
        ghost var t, live, stored := View(), cache.live, cache.Stored();
        var compacted, es1 := CompactChunk(inode, chunkIdx, slices);
        ThenSys(s, es, t, es1, View());
        es := es + es1;
        if compacted.Err? {
          return compacted, es;
        }
        StayDead(s, inode, rows, n, live, t.meta.nextSlice, cache.live);
        if cache.inner.WorkedFor(old(cache.inner.calls), cache.inner.calls) {
          StayDead(s, inode, rows, n, stored, t.meta.nextSlice, cache.Stored());
        }
      }
      return Ok(()), es;
    }

    /** Flushes all dirty slices, of whatever file; a successful flush also realigns the log. */
    method Flush() returns (r: Result<(), VfsError>, ghost es: seq<SysEvent>)
      requires Valid()
      modifies cache, cache.wal, cache.inner
      ensures Valid() && Performs(old(View()), es, View()) && AllKeepFiles(es)
      ensures old(cache.LogWhole()) || (r.Ok? && cache.wal.Reliable()) ==> cache.LogWhole()
      ensures r == if cache.dirtyData == map[] then Ok(()) else Err(Data(Backend))
      ensures r.Ok? <==> cache.inner.WorkedFor(old(cache.inner.calls), cache.inner.calls)
      ensures cache.inner.calls == old(cache.inner.calls) + |old(cache.dirtyData)|
      ensures cache.Stored() == old(cache.Stored())
      ensures r.Ok? ==> forall n, i: nat :: FileByte(meta.View(), cache.inner.slices, n, i) == Content(View(), n, i)
      ensures r.Ok? ==>
                cache.wal.file == if old(cache.wal.faults(cache.wal.calls)) == Some(0) then old(cache.wal.file) else []
      ensures cache.live == old(cache.live)
    {
      hide SysInv, Inv, DiskValid, Mirrors, Performs, OverlayAt, Content, ParseAll, Encode, FileByte;
      ghost var s := View();
      var flushed, ces, order := cache.FlushDirty();
      CacheRun(s, ces);
      es := Lift(ces);
      if flushed.Err? {
        return Err(Data(flushed.error)), es;
      }
      BackendComplete(View());
      return Ok(()), es;
    }

    /** Mount: replay the log. The files hold what the metadata said before. If the log cannot be read the
        file system starts all the same, without the slices that only the log has. */
    method Init() returns (ghost es: seq<SysEvent>)
      requires cache.Valid() && !cache.mounted && cache.inflight == map[] && cache.dirtyData == map[]
      requires cache.diskUsed == 0 && Recoverable(cache.View()) && SysInv(View())
      modifies cache, cache.inner, cache.wal`calls
      ensures cache.mounted == old(cache.wal.Works())
      ensures cache.mounted ==> Valid() && Performs(old(View()), es, View()) && AllKeepFiles(es)
      ensures cache.mounted ==> SameContents(old(View()), View()) && RecoversTo(old(View()), es, View())
      ensures cache.mounted ==> cache.inner.calls == old(cache.inner.calls) + |Ids(ParseAll(cache.wal.file))|
      ensures cache.mounted ==>
                forall id | id in Ids(ParseAll(cache.wal.file)) :: id in cache.inner.slices || id in cache.dirtyData
      ensures cache.mounted ==>
                (cache.dirtyData == map[] <==> cache.inner.WorkedFor(old(cache.inner.calls), cache.inner.calls))
      ensures !cache.mounted ==> View() == old(View()) && cache.inner.calls == old(cache.inner.calls)
      ensures cache.wal.file == old(cache.wal.file)
    {
      hide SysInv, Inv, DiskValid, Mirrors, Performs, OverlayAt, Content, ParseAll, Aligned, Encode;
      ghost var s := View();
      var ces := cache.ReplayWal();
      CacheRun(s, ces);
      es := Lift(ces);
      if cache.mounted {
        ContentsKept(s, es, View());
        Recovered(s, es, View());
      }
    }
  }

  lemma SameBytes(s: Sys, t: Sys)
    requires t.meta == s.meta && t.cache.truth == s.cache.truth
    ensures SameContents(s, t)
  {
  }

  lemma RangeOfFile(s: Sys, inode: nat, offset: nat, end: nat, bytes: Bytes)
    requires inode in s.meta.nodes && offset <= end <= s.meta.nodes[inode].size && |bytes| == end - offset
    requires forall k | 0 <= k < |bytes| :: bytes[k] == Content(s, inode, offset + k)
    ensures |Visible(FileOf(s, inode))| == s.meta.nodes[inode].size
    ensures bytes == Visible(FileOf(s, inode))[offset..end]
  {
    hide Content;
  }

  lemma RowInRange(m: MetaState, inode: nat, offset: nat, end: nat, pos: nat)
    requires offset <= pos < end
    ensures IdsOf(ReadSlices(m, inode, ChunkIndex(pos))) <= IdsIn(m, inode, offset, end)
  {
  }

  lemma OkTold(bytes: Bytes, ids: iset<nat>, a: Gauge, b: Gauge, evicts: nat -> set<nat>, faults: nat -> Option<Fault>)
    requires Frugal(ids, a, b, evicts)
    ensures ReadTold(Ok(bytes), ids, a, b, evicts, faults)
  {
  }

  lemma ErrorTold(e: DataError, ids: iset<nat>, a: Gauge, b: Gauge, evicts: nat -> set<nat>,
                  faults: nat -> Option<Fault>)
    requires Frugal(ids, a, b, evicts) && GaveUp(e, ids, a, b, evicts, faults)
    ensures ReadTold(Err(Data(e)), ids, a, b, evicts, faults)
  {
    if (forall id | id in ids :: Firm(a.c, id)) || (forall id | id in ids :: Near(a.c, id)) {
      NotGivenUp(e, ids, a, b, evicts, faults);
    }
    if b.c.inflight == map[] && forall n | a.calls <= n < b.calls :: faults(n).None? {
      NotGivenUp(e, ids, a, b, evicts, faults);
    }
  }

  /** What the cache says of one read, in these terms. */
  lemma ReadOnce(id: nat, r: Result<Bytes, DataError>, a: Gauge, b: Gauge, evicts: nat -> set<nat>,
                 faults: nat -> Option<Fault>)
    requires b.c == a.c.(l1 := b.c.l1, l2 := b.c.l2, diskUsed := b.c.diskUsed) && a.c.l2.Keys <= b.c.l2.Keys
    requires Near(a.c, id) ==> b == a
    requires if b.inserts == a.inserts then b.c.l1 == a.c.l1
             else r.Ok? && b.inserts == a.inserts + 1 && b.c.l1 == a.c.l1[id := r.value] - evicts(a.inserts)
    requires Held(a.c, id) ==> r.Ok? && b.calls == a.calls
    requires !Held(a.c, id) ==> b.calls == a.calls + 1
    requires r.Err? ==> b.c == a.c && !Held(a.c, id)
    requires r.Err? ==> if faults(a.calls).Some? then r.error == Backend
                        else r.error == DataError.NotFound(BackendKey(id)) && id in a.c.inflight && id !in a.c.backend
    ensures Frugal(iset{id}, a, b, evicts)
    ensures r.Err? ==> GaveUp(r.error, iset{id}, a, b, evicts, faults)
  {
    HeldAfterRead(a.c, b.c, evicts, a.inserts, b.inserts, id, if r.Ok? then r.value else []);
    if r.Err? {
      assert Refused(r.error, b.c, id, faults(b.calls - 1));
    }
  }

  /** One more slice laid into the buffer, which counts from `lo` on. */
  lemma LaidOver(before: Bytes, after: Bytes, slices: seq<Slice>, n: nat, truth: Store, lo: nat)
    requires n < |slices| && |after| == |before|
    requires var sl := slices[n];
             && sl.id in truth && |truth[sl.id]| == sl.length
             && forall k | lo <= k < |after| ::
                  after[k] ==
                  if sl.offset <= k < sl.offset + sl.length then truth[sl.id][k - sl.offset] else before[k]
    requires forall k | lo <= k < |before| :: before[k] == OverlayAt(slices[..n], truth, k)
    ensures forall k | lo <= k < |after| :: after[k] == OverlayAt(slices[..n + 1], truth, k)
  {
    hide OverlayAt;
    assert slices[..n + 1] == slices[..n] + [slices[n]];
    forall k | lo <= k < |after| ensures after[k] == OverlayAt(slices[..n + 1], truth, k) {
      OverlaySnoc(slices[..n], slices[n], truth, k);
    }
  }

  lemma ContentsKept(s: Sys, es: seq<SysEvent>, t: Sys)
    requires SysInv(s) && Performs(s, es, t) && AllKeepFiles(es)
    ensures SameContents(s, t)
  {
    hide SysInv, Content;
    QuietRunKeepsContents(s, es);
  }

  lemma Recovered(s: Sys, es: seq<SysEvent>, t: Sys)
    requires Performs(s, es, t) && AllKeepFiles(es) && t.cache.mounted && t.cache.inflight == map[]
    ensures RecoversTo(s, es, t)
  {
    hide SysInv, LegalSys, RunSys;
  }

  lemma BackendComplete(s: Sys)
    requires SysInv(s) && s.cache.mounted && s.cache.inflight == map[] && s.cache.dirty == map[]
    ensures forall n, i: nat :: FileByte(s.meta, s.cache.backend, n, i) == Content(s, n, i)
  {
    hide SysInv, Content, FileByte;
    forall n, i: nat ensures FileByte(s.meta, s.cache.backend, n, i) == Content(s, n, i) {
      BackendHoldsContents(s, n, i);
    }
  }

  /** No more rows than keys. */
  lemma RowsAreKeys(rows: seq<(nat, seq<Slice>)>, chunks: map<(nat, nat), seq<Slice>>, inode: nat)
    requires forall i | 0 <= i < |rows| :: (inode, rows[i].0) in chunks
    requires forall i, j | 0 <= i < j < |rows| :: rows[i].0 != rows[j].0
    ensures |rows| <= |chunks|
    decreases |rows|
  {
    if rows != [] {
      var k := (inode, rows[|rows| - 1].0);
      var fewer := chunks - {k};
      assert chunks.Keys == fewer.Keys + {k};
      assert |chunks.Keys| == |chunks| && |fewer.Keys| == |fewer|;
      RowsAreKeys(rows[..|rows| - 1], fewer, inode);
    }
  }

  /** None of the slices is owed to readers any more. */
  predicate AllDead(slices: seq<Slice>, live: set<nat>) {
    forall s | s in slices :: s.id !in live
  }

  /** The first `n` rows were compacted if they were longer than one slice: none of these ids is left of them. */
  predicate RowsDead(rows: seq<(nat, seq<Slice>)>, n: nat, ids: set<nat>)
    requires n <= |rows|
  {
    forall j | 0 <= j < n && |rows[j].1| > 1 :: AllDead(rows[j].1, ids)
  }

  lemma NoRowsDead(rows: seq<(nat, seq<Slice>)>)
    ensures forall ids :: RowsDead(rows, 0, ids)
  {
  }

  lemma NextDead(rows: seq<(nat, seq<Slice>)>, n: nat)
    requires n < |rows|
    ensures forall ids :: RowsDead(rows, n, ids) && (|rows[n].1| > 1 ==> AllDead(rows[n].1, ids)) ==>
              RowsDead(rows, n + 1, ids)
  {
  }

  /** Ids of rows that were compacted away never come back: whatever appears later has a higher id. */
  lemma StayDead(s: Sys, inode: nat, rows: seq<(nat, seq<Slice>)>, n: nat, ids: set<nat>, next: nat, ids': set<nat>)
    requires SysInv(s) && next >= s.meta.nextSlice && n <= |rows|
    requires forall i | 0 <= i < |rows| ::
               (inode, rows[i].0) in s.meta.chunks && s.meta.chunks[(inode, rows[i].0)] == rows[i].1
    requires RowsDead(rows, n, ids) && forall id | id in ids' :: id in ids || id >= next
    ensures RowsDead(rows, n, ids')
  {
    hide Inv;
    forall i, sl | 0 <= i < n && |rows[i].1| > 1 && sl in rows[i].1 ensures sl.id !in ids' {
      RowIsSound(s, inode, rows[i].0);
      assert sl in ReadSlices(s.meta, inode, rows[i].0);
      assert AllDead(rows[i].1, ids);
    }
  }

  lemma AllWithinChunk(s: Sys)
    requires SysInv(s)
    ensures forall k | k in s.meta.chunks :: forall sl | sl in s.meta.chunks[k] :: sl.offset + sl.length <= CHUNK_SIZE
  {
    hide Inv;
    forall k, sl | k in s.meta.chunks && sl in s.meta.chunks[k] ensures sl.offset + sl.length <= CHUNK_SIZE {
      var i :| 0 <= i < |s.meta.chunks[k]| && s.meta.chunks[k][i] == sl;
      WriteOnceSlice(s, k, i);
    }
  }

  /** All bytes have landed in `t`, and the size has moved in `u`. */
  lemma WriteDone(s: Sys, t: Sys, u: Sys, inode: nat, offset: nat, data: Bytes)
    requires inode in s.meta.nodes && CutAfter(s, t, inode, offset, data, |data|) && SameContents(t, u)
    requires u.meta.nodes == DoSetSize(s.meta, inode, Max(s.meta.nodes[inode].size, offset + |data|)).state.nodes
    ensures Overlaid(s, u, inode, offset, data, |data|)
    ensures offset + |data| <= MAX_OFFSET ==> Did(s, u, inode, WriteAt(offset, data))
    ensures forall n | n in s.meta.nodes && n != inode :: Did(s, u, n, Other)
  {
    hide Content, Distance;
    if offset + |data| <= MAX_OFFSET {
      FarWriteIff(s, u, inode, offset, data);
    }
  }

  /** The bytes of a write that lie beyond 2^58 equal those they are folded back on. */
  ghost predicate FoldsOntoSame(s: Sys, inode: nat, offset: nat, data: Bytes) {
    forall k | 0 <= k < |data| && MAX_OFFSET <= offset + k ::
      data[k] == Content(s, inode, (offset + k) % MAX_OFFSET)
  }

  /** Exactly then a write that reaches beyond 2^58 does what it should. */
  lemma FarWriteIff(s: Sys, u: Sys, inode: nat, offset: nat, data: Bytes)
    requires inode in s.meta.nodes && inode in u.meta.nodes && |data| <= MAX_OFFSET
    requires Overlaid(s, u, inode, offset, data, |data|)
    requires u.meta.nodes[inode].size == Max(s.meta.nodes[inode].size, offset + |data|)
    ensures Did(s, u, inode, WriteAt(offset, data)) <==> FoldsOntoSame(s, inode, offset, data)
  {
    hide Content, Distance, Overlaid;
    if Did(s, u, inode, WriteAt(offset, data)) {
      forall k | 0 <= k < |data| && MAX_OFFSET <= offset + k
        ensures data[k] == Content(s, inode, (offset + k) % MAX_OFFSET)
      {
        FoldedUnchanged(s, u, inode, offset, data, k);
      }
    }
    if FoldsOntoSame(s, inode, offset, data) {
      forall i: nat | i < MAX_OFFSET
        ensures Content(u, inode, i) ==
                if offset <= i < offset + |data| then data[i - offset] else Content(s, inode, i)
      {
        UnfoldedRight(s, u, inode, offset, data, i);
      }
    }
  }

  lemma FoldedUnchanged(s: Sys, u: Sys, inode: nat, offset: nat, data: Bytes, k: nat)
    requires Did(s, u, inode, WriteAt(offset, data)) && Overlaid(s, u, inode, offset, data, |data|)
    requires k < |data| <= MAX_OFFSET <= offset + k
    ensures data[k] == Content(s, inode, (offset + k) % MAX_OFFSET)
  {
    hide Content, Distance;
    var i := (offset + k) % MAX_OFFSET;
    FoldedDistance(offset, k, i);
    FoldedBelow(offset, k, |data|, i);
    assert Content(u, inode, i) == FileOf(u, inode).at(i);
  }

  lemma UnfoldedRight(s: Sys, u: Sys, inode: nat, offset: nat, data: Bytes, i: nat)
    requires FoldsOntoSame(s, inode, offset, data) && Overlaid(s, u, inode, offset, data, |data|)
    requires |data| <= MAX_OFFSET && i < MAX_OFFSET
    ensures Content(u, inode, i) == if offset <= i < offset + |data| then data[i - offset] else Content(s, inode, i)
  {
    hide Content, Distance;
    FoldedBack(offset, |data|, i);
  }

  lemma FoldedDistance(offset: nat, k: nat, i: nat)
    requires k < MAX_OFFSET && i == (offset + k) % MAX_OFFSET
    ensures Distance(offset, i) == k
  {
    var q := (offset + k) / MAX_OFFSET;
    assert i - offset == -q * MAX_OFFSET + k;
    ModuloUnique(i - offset, -q, k);
  }

  /** A folded byte does not lie in the range itself. */
  lemma FoldedBelow(offset: nat, k: nat, len: nat, i: nat)
    requires k < len <= MAX_OFFSET <= offset + k && i == (offset + k) % MAX_OFFSET
    ensures !(offset <= i < offset + len)
  {
    var q := (offset + k) / MAX_OFFSET;
    assert i == offset + k - q * MAX_OFFSET && q >= 1;
  }

  /** A byte below 2^58 at distance `d` is in the range, or byte `d` of the range folds back on it. */
  lemma FoldedBack(offset: nat, len: nat, i: nat)
    requires len <= MAX_OFFSET && i < MAX_OFFSET
    ensures offset <= i < offset + len ==> Distance(offset, i) == i - offset
    ensures var d := Distance(offset, i);
            d < len && !(offset <= i < offset + len) ==> offset + d >= MAX_OFFSET && (offset + d) % MAX_OFFSET == i
  {
    var d, q := Distance(offset, i), (i - offset) / MAX_OFFSET;
    assert i - offset == q * MAX_OFFSET + d;
    if offset <= i {
      assert i - offset < MAX_OFFSET;
    } else {
      assert offset + d == i - q * MAX_OFFSET && q <= -1;
      ModuloUnique(offset + d, -q, i);
    }
  }

  lemma NotYetSized(s: Sys, es: seq<SysEvent>, inode: nat, offset: nat, data: Bytes)
    requires AllTorn(s, es, inode, offset, data)
    ensures TornInside(s, es, inode, offset, data)
  {
  }

  lemma SameSame(s: Sys)
    ensures SameContents(s, s)
  {
    hide Content;
  }

  lemma NothingDone(s: Sys, t: Sys)
    requires t.meta.nodes == s.meta.nodes && SameContents(s, t)
    ensures forall n | n in s.meta.nodes :: Did(s, t, n, Other)
  {
    hide Content;
  }

  lemma NothingTorn(s: Sys, inode: nat, offset: nat, data: Bytes)
    ensures AllTorn(s, [], inode, offset, data) && TornInside(s, [], inode, offset, data)
    ensures PieceEnd(offset, |data|, 0) && CutAfter(s, s, inode, offset, data, 0)
  {
    hide Content;
    var none: seq<SysEvent> := [];
    assert none[..0] == none;
    assert CutAfter(s, s, inode, offset, data, 0);
  }

  lemma PieceLegal(s: Sys, es: seq<SysEvent>, t: Sys)
    requires Performs(s, es, t)
    ensures LegalSys(s, es)
  {
  }

  lemma SizeSet(s: Sys, es: seq<SysEvent>, t: Sys, inode: nat, offset: nat, data: Bytes, size: nat)
    returns (es': seq<SysEvent>)
    requires SysInv(s) && Performs(s, es, t) && AllTorn(s, es, inode, offset, data)
    ensures var u := ApplySys(t, OfMeta(SetSize(inode, size)));
            && Performs(s, es', u) && SysInv(u) && SameContents(t, u) && TornInside(s, es', inode, offset, data)
  {
    hide SysInv, Content, Torn;
    var e := OfMeta(SetSize(inode, size));
    var u := ApplySys(t, e);
    MetaStep(t, SetSize(inode, size));
    es' := es + [e];
    ThenSys(s, es, t, [e], u);
    MetaEventKeepsContents(t, SetSize(inode, size));
    forall k | 0 <= k < |es'| ensures Torn(s, RunSys(s, es'[..k]), inode, offset, data) {
      assert es'[..k] == es[..k];
    }
  }

  /** Slice ids are `u64`. */
  const MAX_IDS: nat := 0x1_0000_0000_0000_0000

  lemma RowIsSound(s: Sys, inode: nat, chunk: nat)
    requires SysInv(s)
    ensures forall sl | sl in ReadSlices(s.meta, inode, chunk) :: SliceOk(s.cache, sl)
  {
    hide Inv;
    var row := ReadSlices(s.meta, inode, chunk);
    forall sl | sl in row ensures SliceOk(s.cache, sl) {
      var i :| 0 <= i < |row| && row[i] == sl;
      WriteOnceSlice(s, (inode, chunk), i);
    }
  }

  lemma WithinChunk(pos: nat, k: nat)
    requires pos % CHUNK_SIZE + k < CHUNK_SIZE
    ensures (pos + k) / CHUNK_SIZE == pos / CHUNK_SIZE
    ensures (pos + k) % CHUNK_SIZE == pos % CHUNK_SIZE + k
  {
  }

  /** The counter's next id was never written, logged or referenced. */
  lemma FreshId(s: Sys)
    requires SysInv(s)
    ensures s.meta.nextSlice !in s.cache.truth
    ensures !Referenced(s.meta, s.meta.nextSlice)
  {
    hide Inv;
  }

  /** After a fresh id and its bytes went to the cache, nothing reads differently. */
  lemma PieceCached(s: Sys, id: nat, piece: Bytes, ces: seq<Event>, s2: Sys)
    requires SysInv(s) && id == s.meta.nextSlice
    requires s2.meta == DoNextSlice(s.meta).state
    requires Does(s.cache, ces, s2.cache) && s2.cache.truth == s.cache.truth[id := piece]
    requires forall e | e in ces :: !e.Kill? && (e.Append? ==> e.id == id)
    ensures Performs(s, [OfMeta(NextSlice)] + Lift(ces), s2) && SysInv(s2)
    ensures AllKeepFiles([OfMeta(NextSlice)] + Lift(ces)) && SameContents(s, s2)
    ensures !Referenced(s2.meta, id) && KeepNodes([OfMeta(NextSlice)] + Lift(ces))
  {
    hide SysInv, Inv, OverlayAt, Content;
    var s1 := ApplySys(s, OfMeta(NextSlice));
    MetaStep(s, NextSlice);
    CacheRun(s1, ces);
    ThenSys(s, [OfMeta(NextSlice)], s1, Lift(ces), s2);
    assert KeepsFiles(OfMeta(NextSlice));
    QuietRunKeepsContents(s, [OfMeta(NextSlice)] + Lift(ces));
    FreshId(s);
  }

  lemma PieceLands(s: Sys, s2: Sys, inode: nat, pos: nat, piece: Bytes, id: nat)
    requires SameContents(s, s2) && s2.meta.nodes == s.meta.nodes
    requires id in s2.cache.truth && s2.cache.truth[id] == piece
    requires piece != [] && pos % CHUNK_SIZE + |piece| <= CHUNK_SIZE
    requires EnabledSys(s2, OfMeta(WriteSlice(inode, ChunkIndex(pos), Slice(id, pos % CHUNK_SIZE, |piece|))))
    ensures var t := ApplySys(s2, OfMeta(WriteSlice(inode, ChunkIndex(pos), Slice(id, pos % CHUNK_SIZE, |piece|))));
            CutAfter(s, t, inode, pos, piece, |piece|)
  {
    hide OverlayAt, Content, Referenced, SliceOk;
    var slice := Slice(id, pos % CHUNK_SIZE, |piece|);
    var t := ApplySys(s2, OfMeta(WriteSlice(inode, ChunkIndex(pos), slice)));
    forall n, i: nat
      ensures Content(t, n, i) ==
              if n == inode && Distance(pos, i) < |piece| then piece[Distance(pos, i)] else Content(s, n, i)
    {
      WriteSliceContent(s2, inode, ChunkIndex(pos), slice, n, i);
      if n == inode {
        InPiece(pos, |piece|, i);
      }
      assert Content(s2, n, i) == Content(s, n, i);
    }
  }

  lemma PieceWritten(s: Sys, es2: seq<SysEvent>, s2: Sys, inode: nat, pos: nat, piece: Bytes, id: nat)
    returns (es: seq<SysEvent>)
    requires SysInv(s) && Performs(s, es2, s2) && AllKeepFiles(es2) && SameContents(s, s2) && !Referenced(s2.meta, id)
    requires KeepNodes(es2)
    requires id in s2.cache.live && id in s2.cache.truth && s2.cache.truth[id] == piece
    requires piece != [] && pos % CHUNK_SIZE + |piece| <= CHUNK_SIZE
    ensures var op := WriteSlice(inode, ChunkIndex(pos), Slice(id, pos % CHUNK_SIZE, |piece|));
            var t := ApplySys(s2, OfMeta(op));
            && es == es2 + [OfMeta(op)] && Performs(s, es, t) && SysInv(t)
            && AllTorn(s, es, inode, pos, piece) && CutAfter(s, t, inode, pos, piece, |piece|)
  {
    hide SysInv, OverlayAt, Content, Referenced;
    var slice := Slice(id, pos % CHUNK_SIZE, |piece|);
    var op := WriteSlice(inode, ChunkIndex(pos), slice);
    var t := ApplySys(s2, OfMeta(op));
    NodesKept(s, es2);
    MetaStep(s2, op);
    es := es2 + [OfMeta(op)];
    ThenSys(s, es2, s2, [OfMeta(op)], t);
    PieceLands(s, s2, inode, pos, piece, id);
    PieceTorn(s, es2, op, t, inode, pos, piece);
  }

  /** A write of `len` bytes may end after `j` of them: at its start, its end, or a chunk boundary. */
  predicate PieceEnd(offset: nat, len: nat, j: nat) {
    j <= len && (j == 0 || j == len || (offset + j) % CHUNK_SIZE == 0)
  }

  /** Exactly the first `j` bytes of the write are in the file, at any offset: bytes whose offsets are a
      multiple of 2^58 apart are one byte of the file. */
  ghost predicate Overlaid(s: Sys, u: Sys, inode: nat, offset: nat, data: Bytes, j: nat) {
    && j <= |data|
    && forall n, i: nat ::
         Content(u, n, i) ==
         if n == inode && Distance(offset, i) < j then data[Distance(offset, i)] else Content(s, n, i)
  }

  /** ... and no size has moved. */
  ghost predicate CutAfter(s: Sys, u: Sys, inode: nat, offset: nat, data: Bytes, j: nat) {
    u.meta.nodes == s.meta.nodes && Overlaid(s, u, inode, offset, data, j)
  }

  /** A state inside a write: the old file under a prefix of the data, in the order of the pieces. */
  ghost predicate Torn(s: Sys, u: Sys, inode: nat, offset: nat, data: Bytes) {
    exists j: nat :: PieceEnd(offset, |data|, j) && CutAfter(s, u, inode, offset, data, j)
  }

  ghost predicate AllTorn(s: Sys, es: seq<SysEvent>, inode: nat, offset: nat, data: Bytes) {
    forall k | 0 <= k <= |es| :: Torn(s, RunSys(s, es[..k]), inode, offset, data)
  }

  /** Every state before the last event, hence before the size update if there is one. */
  ghost predicate TornInside(s: Sys, es: seq<SysEvent>, inode: nat, offset: nat, data: Bytes) {
    forall k | 0 <= k < |es| :: Torn(s, RunSys(s, es[..k]), inode, offset, data)
  }

  /** In the words of FileHistory: the file has gone through a write that ended early, others through nothing. */
  lemma TornIsCut(s: Sys, u: Sys, inode: nat, offset: nat, data: Bytes)
    requires inode in s.meta.nodes && Torn(s, u, inode, offset, data) && offset + |data| <= MAX_OFFSET
    ensures exists j: nat :: PieceEnd(offset, |data|, j) && Did(s, u, inode, Cut(offset, data[..j]))
    ensures forall n | n in s.meta.nodes && n != inode :: Did(s, u, n, Other)
  {
    hide Content;
    var j: nat :| PieceEnd(offset, |data|, j) && CutAfter(s, u, inode, offset, data, j);
    CutIsDid(s, u, inode, offset, data, j);
  }

  /** A process that dies inside a write and mounts again has cut the write short at the end of a piece. */
  lemma CrashedWrite(s: Sys, es: seq<SysEvent>, k: nat, torn: Bytes, c: Sys, recovery: seq<SysEvent>, t: Sys,
                     inode: nat, offset: nat, data: Bytes)
    requires SysInv(s) && LegalSys(s, es) && TornInside(s, es, inode, offset, data) && k < |es|
    requires CrashesTo(RunSys(s, es[..k]), torn, c) && RecoversTo(c, recovery, t) && t.meta == c.meta
    requires inode in s.meta.nodes && offset + |data| <= MAX_OFFSET
    ensures exists j: nat :: PieceEnd(offset, |data|, j) && Did(s, t, inode, Cut(offset, data[..j]))
    ensures forall n | n in s.meta.nodes && n != inode :: Did(s, t, n, Other)
  {
    hide SysInv, Content, Torn, EnabledSys;
    var u := RunSys(s, es[..k]);
    assert Torn(s, u, inode, offset, data);
    PrefixLegalSys(s, es, k);
    RunSysKeepsInv(s, es[..k]);
    SysEventKeepsInv(u, OfCache(Crash(torn)));
    SysEventKeepsContents(u, OfCache(Crash(torn)));
    QuietRunKeepsContents(c, recovery);
    assert c.meta == u.meta;
    SameStaysTorn(s, u, t, inode, offset, data);
    TornIsCut(s, t, inode, offset, data);
  }

  lemma SameStaysTorn(s: Sys, u: Sys, t: Sys, inode: nat, offset: nat, data: Bytes)
    requires Torn(s, u, inode, offset, data) && t.meta.nodes == u.meta.nodes
    requires forall n, i: nat :: Content(t, n, i) == Content(u, n, i)
    ensures Torn(s, t, inode, offset, data)
  {
    hide Content;
    var j: nat :| PieceEnd(offset, |data|, j) && CutAfter(s, u, inode, offset, data, j);
    assert CutAfter(s, t, inode, offset, data, j);
  }

  /** None of the events touches a node. */
  ghost predicate KeepNodes(es: seq<SysEvent>) {
    forall e | e in es :: e.OfCache? || e.op.NextSlice?
  }

  lemma {:induction false} NodesKept(s: Sys, es: seq<SysEvent>)
    requires KeepNodes(es)
    ensures RunSys(s, es).meta.nodes == s.meta.nodes
    decreases |es|
  {
    hide Apply;
    if es == [] {
    } else {
      assert es[|es| - 1] in es && forall e | e in es[..|es| - 1] :: e in es;
      NodesKept(s, es[..|es| - 1]);
    }
  }

  lemma PieceTorn(s: Sys, es2: seq<SysEvent>, op: MetaOp, t: Sys, inode: nat, pos: nat, piece: Bytes)
    requires SysInv(s) && LegalSys(s, es2) && AllKeepFiles(es2) && KeepNodes(es2)
    requires t == RunSys(s, es2 + [OfMeta(op)]) && CutAfter(s, t, inode, pos, piece, |piece|)
    ensures AllTorn(s, es2 + [OfMeta(op)], inode, pos, piece)
  {
    hide SysInv, Content, EnabledSys, ApplySys, KeepsFiles;
    var es := es2 + [OfMeta(op)];
    forall k | 0 <= k <= |es| ensures Torn(s, RunSys(s, es[..k]), inode, pos, piece) {
      if k <= |es2| {
        assert es[..k] == es2[..k];
        PrefixLegalSys(s, es2, k);
        QuietRunKeepsContents(s, es2[..k]);
        NodesKept(s, es2[..k]);
        assert CutAfter(s, RunSys(s, es[..k]), inode, pos, piece, 0);
      } else {
        assert es[..k] == es;
        assert CutAfter(s, RunSys(s, es[..k]), inode, pos, piece, |piece|);
      }
    }
  }

  /** The next piece of a write continues the prefix. */
  lemma TornThen(s: Sys, es: seq<SysEvent>, t: Sys, es1: seq<SysEvent>, u: Sys, inode: nat,
                 offset: nat, data: Bytes, j: nat, piece: Bytes)
    requires Performs(s, es, t) && LegalSys(t, es1)
    requires AllTorn(s, es, inode, offset, data) && AllTorn(t, es1, inode, offset + j, piece)
    requires j + |piece| <= |data| <= MAX_OFFSET && piece == data[j..j + |piece|]
    requires PieceEnd(offset, |data|, j) && CutAfter(s, t, inode, offset, data, j)
    requires PieceEnd(offset, |data|, j + |piece|) && CutAfter(t, u, inode, offset + j, piece, |piece|)
    ensures AllTorn(s, es + es1, inode, offset, data) && CutAfter(s, u, inode, offset, data, j + |piece|)
  {
    hide SysInv, Content, EnabledSys, ApplySys, Torn, CutAfter, PieceEnd;
    CutTwice(s, t, u, inode, offset, data, j, piece, |piece|);
    forall k | 0 <= k <= |es + es1| ensures Torn(s, RunSys(s, (es + es1)[..k]), inode, offset, data) {
      if k <= |es| {
        assert (es + es1)[..k] == es[..k];
      } else {
        var k1 := k - |es|;
        assert (es + es1)[..k] == es + es1[..k1];
        PrefixLegalSys(t, es1, k1);
        ConcatSys(s, es, es1[..k1]);
        TornTwice(s, t, RunSys(t, es1[..k1]), inode, offset, data, j, piece);
      }
    }
  }

  lemma TornTwice(s: Sys, t: Sys, u: Sys, inode: nat, offset: nat, data: Bytes, j: nat, piece: Bytes)
    requires j + |piece| <= |data| <= MAX_OFFSET && piece == data[j..j + |piece|]
    requires PieceEnd(offset, |data|, j) && PieceEnd(offset, |data|, j + |piece|)
    requires CutAfter(s, t, inode, offset, data, j) && Torn(t, u, inode, offset + j, piece)
    ensures Torn(s, u, inode, offset, data)
  {
    hide Content, CutAfter;
    var k :| PieceEnd(offset + j, |piece|, k) && CutAfter(t, u, inode, offset + j, piece, k);
    CutTwice(s, t, u, inode, offset, data, j, piece, k);
    assert PieceEnd(offset, |data|, j + k);
  }

  lemma CutTwice(s: Sys, t: Sys, u: Sys, inode: nat, offset: nat, data: Bytes, j: nat, piece: Bytes, k: nat)
    requires j + |piece| <= |data| <= MAX_OFFSET && piece == data[j..j + |piece|]
    requires CutAfter(s, t, inode, offset, data, j) && CutAfter(t, u, inode, offset + j, piece, k)
    ensures CutAfter(s, u, inode, offset, data, j + k)
  {
    hide Content, Distance;
    forall n, i: nat
      ensures Content(u, n, i) ==
              if n == inode && Distance(offset, i) < j + k then data[Distance(offset, i)] else Content(s, n, i)
    {
      DistanceFrom(offset, j, i);
      if n == inode && Distance(offset + j, i) < k {
        assert Distance(offset, i) < MAX_OFFSET by { DistanceIs(offset, i); }
      }
    }
  }

  lemma NextPiece(s: Sys, es: seq<SysEvent>, t: Sys, es1: seq<SysEvent>, u: Sys, inode: nat,
                  offset: nat, data: Bytes, j: nat, piece: Bytes) returns (es': seq<SysEvent>)
    requires Performs(s, es, t) && Performs(t, es1, u)
    requires AllTorn(s, es, inode, offset, data) && AllTorn(t, es1, inode, offset + j, piece)
    requires j < |data| <= MAX_OFFSET && |piece| == Min(CHUNK_SIZE - (offset + j) % CHUNK_SIZE, |data| - j)
    requires piece == data[j..j + |piece|]
    requires PieceEnd(offset, |data|, j) && CutAfter(s, t, inode, offset, data, j)
    requires CutAfter(t, u, inode, offset + j, piece, |piece|)
    ensures Performs(s, es', u) && AllTorn(s, es', inode, offset, data)
    ensures PieceEnd(offset, |data|, j + |piece|) && CutAfter(s, u, inode, offset, data, j + |piece|)
  {
    hide AllTorn, CutAfter;
    PieceLegal(t, es1, u);
    EndOfPiece(offset, |data|, j, |piece|);
    TornThen(s, es, t, es1, u, inode, offset, data, j, piece);
    ThenSys(s, es, t, es1, u);
    es' := es + es1;
  }

  /** A piece ends at a chunk boundary or at the end of the write. */
  lemma EndOfPiece(offset: nat, len: nat, j: nat, n: nat)
    requires j < len && n == Min(CHUNK_SIZE - (offset + j) % CHUNK_SIZE, len - j)
    ensures n > 0 && PieceEnd(offset, len, j + n)
  {
  }

  /** Cuts do happen: from every running state a legal run stores one piece and stops before the size moves. */
  lemma CutHappens(s: Sys, inode: nat, pos: nat, piece: Bytes) returns (es: seq<SysEvent>, t: Sys)
    requires SysInv(s) && s.meta.nextSlice < MAX_IDS && inode in s.meta.nodes
    requires piece != [] && pos % CHUNK_SIZE + |piece| <= CHUNK_SIZE && pos + |piece| <= MAX_OFFSET
    ensures LegalSys(s, es) && t == RunSys(s, es) && Did(s, t, inode, Cut(pos, piece))
  {
    hide SysInv, Inv, Content, OverlayAt, ParseAll, Aligned, Encode, Enabled, EnabledSys;
    var id := s.meta.nextSlice;
    FreshId(s);
    var c := s.cache;
    var reached := Encode(Record(id, piece));
    var c1 := Appended(c, id, piece, reached);
    Appendable(s, id, piece);
    Nothing(c1);
    var ces := BufferRun(c, id, piece, reached, [], c1);
    var s2 := Sys(DoNextSlice(s.meta).state, c1.(dirty := c1.dirty[id := piece], live := c1.live + {id}));
    PieceCached(s, id, piece, ces, s2);
    es := PieceWritten(s, [OfMeta(NextSlice)] + Lift(ces), s2, inode, pos, piece, id);
    t := ApplySys(s2, OfMeta(WriteSlice(inode, ChunkIndex(pos), Slice(id, pos % CHUNK_SIZE, |piece|))));
    CutIsDid(s, t, inode, pos, piece, |piece|);
    assert piece[..|piece|] == piece;
  }

  lemma Appendable(s: Sys, id: nat, piece: Bytes)
    requires SysInv(s) && id == s.meta.nextSlice < MAX_IDS && |piece| <= CHUNK_SIZE
    ensures Inv(s.cache) && id !in s.cache.truth && Fits(Record(id, piece))
  {
    hide Inv, ParseAll, Aligned;
    FreshId(s);
  }

  lemma CutIsDid(s: Sys, t: Sys, inode: nat, offset: nat, data: Bytes, j: nat)
    requires inode in s.meta.nodes && offset + |data| <= MAX_OFFSET && CutAfter(s, t, inode, offset, data, j)
    ensures Did(s, t, inode, Cut(offset, data[..j]))
    ensures forall n | n in s.meta.nodes && n != inode :: Did(s, t, n, Other)
  {
    hide Content, Distance;
    forall i: nat | i < MAX_OFFSET
      ensures Content(t, inode, i) == if offset <= i < offset + j then data[i - offset] else Content(s, inode, i)
    {
      DistanceBelow(offset, i, j);
    }
  }

  /** A byte lies in a piece that stays inside one chunk exactly when its chunk and offset say so. */
  lemma InPiece(pos: nat, len: nat, i: nat)
    requires len > 0 && pos % CHUNK_SIZE + len <= CHUNK_SIZE
    ensures Distance(pos, i) < len <==>
            ChunkIndex(i) == ChunkIndex(pos) && pos % CHUNK_SIZE <= i % CHUNK_SIZE < pos % CHUNK_SIZE + len
    ensures Distance(pos, i) < len ==> i % CHUNK_SIZE - pos % CHUNK_SIZE == Distance(pos, i)
  {
    InChunk(i);
    InChunk(pos);
    DistanceIs(pos, i);
    SameChunkBytes(ChunkIndex(i), i % CHUNK_SIZE, ChunkIndex(pos), pos % CHUNK_SIZE, len);
  }

  lemma SameChunkBytes(c: nat, x: nat, d: nat, y: nat, len: nat)
    requires c < U32 && d < U32 && x < CHUNK_SIZE && y + len <= CHUNK_SIZE && len > 0
    ensures var a, b := c * CHUNK_SIZE + x, d * CHUNK_SIZE + y;
            var dist := if a >= b then a - b else a - b + MAX_OFFSET;
            && (dist < len <==> c == d && y <= x < y + len)
            && (dist < len ==> x - y == dist)
  {
    if c < d {
      assert (d - c) * CHUNK_SIZE >= CHUNK_SIZE;
    } else if c > d {
      assert (c - d) * CHUNK_SIZE >= CHUNK_SIZE;
    }
  }

  function MaxEnd(slices: seq<Slice>): nat {
    if slices == [] then 0
    else Max(MaxEnd(slices[..|slices| - 1]), slices[|slices| - 1].offset + slices[|slices| - 1].length)
  }

  lemma {:induction false} EndsBelow(slices: seq<Slice>, i: nat)
    requires i < |slices|
    ensures slices[i].offset + slices[i].length <= MaxEnd(slices)
    decreases |slices|
  {
    if i == |slices| - 1 {
    } else {
      EndsBelow(slices[..|slices| - 1], i);
    }
  }

  lemma {:induction false} MaxEndBound(slices: seq<Slice>, bound: nat)
    requires forall s | s in slices :: s.offset + s.length <= bound
    ensures MaxEnd(slices) <= bound
    decreases |slices|
  {
    if slices == [] {
    } else {
      assert slices[|slices| - 1] in slices;
      MaxEndBound(slices[..|slices| - 1], bound);
    }
  }

  lemma MergedFits(s: Sys, slices: seq<Slice>)
    requires forall sl | sl in slices :: SliceOk(s.cache, sl)
    ensures MaxEnd(slices) <= CHUNK_SIZE
  {
    MaxEndBound(slices, CHUNK_SIZE);
  }

  /** The swap is legal because the merged slice reads like the row, and it frees the row's ids. */
  lemma RowSwapped(s: Sys, es2: seq<SysEvent>, s2: Sys,
                   inode: nat, chunk: nat, slices: seq<Slice>, bytes: Bytes, id: nat)
    returns (es: seq<SysEvent>)
    requires SysInv(s) && Performs(s, es2, s2) && AllKeepFiles(es2)
    requires slices == ReadSlices(s.meta, inode, chunk) == ReadSlices(s2.meta, inode, chunk)
    requires (inode, chunk) in s2.meta.chunks
    requires id in s2.cache.live && s2.cache.truth == s.cache.truth[id := bytes] && id !in s.cache.truth
    requires !Referenced(s2.meta, id)
    requires |bytes| == MaxEnd(slices) <= CHUNK_SIZE
    requires forall k | 0 <= k < |bytes| :: bytes[k] == OverlayAt(slices, s.cache.truth, k)
    ensures var op := ReplaceSlices(inode, chunk, [Slice(id, 0, |bytes|)]);
            var t := ApplySys(s2, OfMeta(op));
            && Performs(s, es, t) && SysInv(t) && AllKeepFiles(es)
            && forall sl | sl in slices :: !Referenced(t.meta, sl.id)
  {
    hide SysInv, Content;
    PerformedInv(s, es2, s2);
    var merged := Slice(id, 0, |bytes|);
    var op := ReplaceSlices(inode, chunk, [merged]);
    MergedReadsSame(s, s2, inode, chunk, slices, bytes, id);
    MetaStep(s2, op);
    es := es2 + [OfMeta(op)];
    ThenSys(s, es2, s2, [OfMeta(op)], ApplySys(s2, OfMeta(op)));
    OldIdsFreed(s2, inode, chunk, merged);
  }

  lemma PerformedInv(s: Sys, es: seq<SysEvent>, t: Sys)
    requires SysInv(s) && Performs(s, es, t)
    ensures SysInv(t)
  {
  }

  lemma MergedReadsSame(s0: Sys, s2: Sys, inode: nat, chunk: nat, slices: seq<Slice>, bytes: Bytes, id: nat)
    requires SysInv(s0) && SysInv(s2)
    requires slices == ReadSlices(s0.meta, inode, chunk)
    requires s2.cache.truth == s0.cache.truth[id := bytes] && id !in s0.cache.truth
    requires |bytes| == MaxEnd(slices)
    requires forall k | 0 <= k < |bytes| :: bytes[k] == OverlayAt(slices, s0.cache.truth, k)
    ensures SameOverlay([Slice(id, 0, |bytes|)], slices, s2.cache.truth)
  {
    hide Inv, ChunksOk, OverlayAt;
    var truth, merged := s2.cache.truth, Slice(id, 0, |bytes|);
    forall off: nat ensures OverlayAt([merged], truth, off) == OverlayAt(slices, truth, off) {
      assert [] + [merged] == [merged];
      OverlaySnoc([], merged, truth, off);
      EmptyOverlay(truth);
      LiveWritten(s0);
      RowAgrees(s0, truth, inode, chunk, off);
      if off >= |bytes| {
        forall sl | sl in slices ensures sl.offset + sl.length <= off {
          var i :| 0 <= i < |slices| && slices[i] == sl;
          EndsBelow(slices, i);
        }
        OverlayBeyond(slices, truth, off);
      }
    }
  }

  lemma LiveWritten(s: Sys)
    requires SysInv(s)
    ensures forall id | id in s.cache.live :: id in s.cache.truth
  {
    hide ChunksOk, LogAgrees, Agrees;
    assert s.cache.live <= s.cache.truth.Keys;
  }

  /** Write-once ids: a row's ids occur nowhere else, so swapping the row frees them. */
  lemma OldIdsFreed(s: Sys, inode: nat, chunk: nat, merged: Slice)
    requires SysInv(s) && (inode, chunk) in s.meta.chunks && !Referenced(s.meta, merged.id)
    ensures var m' := DoReplaceSlices(s.meta, inode, chunk, [merged]).state;
            forall sl | sl in ReadSlices(s.meta, inode, chunk) :: !Referenced(m', sl.id)
  {
    hide Inv, SliceOk;
    var key := (inode, chunk);
    var row := s.meta.chunks[key];
    var m' := DoReplaceSlices(s.meta, inode, chunk, [merged]).state;
    forall sl | sl in row ensures !Referenced(m', sl.id) {
      var j :| 0 <= j < |row| && row[j] == sl;
      assert Referenced(s.meta, sl.id) by {
        assert s.meta.chunks[key][j].id == sl.id;
      }
    }
  }

  lemma EmptyOverlay(data: Store)
    ensures forall off: nat :: OverlayAt([], data, off) == 0
  {
  }
}
