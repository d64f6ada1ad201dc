/** A process dies and another one starts over what it left. */
module Restart {
  import opened Types
  import opened WriteAheadLog
  import opened MetaModel
  import opened RedbEngine
  import opened CacheModel
  import opened DataEngines
  import opened TieredCaches
  import opened Overlay
  import opened System
  import opened SystemRuns
  import opened FileHistory
  import opened VirtualFs

  /** The new process gets the log file, behind which an append may have left `torn`, the database, the cache
      directory and the backend; nothing of the old one's memory. That is what the event Crash says. */
  method Reboot(vfs: Vfs, torn: Bytes, logFaults: nat -> Option<nat>, around: Surroundings) returns (next: Vfs)
    requires vfs.cache.Valid() && SysInv(vfs.View()) && EnabledSys(vfs.View(), OfCache(Crash(torn)))
    ensures fresh(next) && fresh(next.meta) && fresh(next.cache) && fresh(next.cache.wal)
    ensures next.cache.inner == vfs.cache.inner && next.cache.wal.faults == logFaults && next.cache.wal.calls == 0
    ensures CrashesTo(vfs.View(), torn, next.View())
    ensures next.cache.Valid() && SysInv(next.View())
    ensures !next.cache.mounted && next.cache.inflight == map[] && next.cache.dirtyData == map[]
    ensures next.cache.diskUsed == 0 && next.cache.files == vfs.cache.files
  {
    hide Inv, ChunksOk, IdsIssued, DiskValid, Mirrors, ParseAll, Aligned, Encode, Enabled;
    var dead := vfs.cache;
    ghost var s := vfs.View();
    SysEventKeepsInv(s, OfCache(Crash(torn)));
    ghost var c := Apply(s.cache, Crash(torn));
    var wal := new Wal(dead.wal.file + torn, logFaults);
    var cache := new TieredCache(dead.inner, wal, dead.diskBase, dead.diskMax, around, dead.files, dead.disk,
                                 c.sound, dead.truth, dead.live);
    var m := vfs.meta;
    var meta := new RedbMetaEngine.Reopen(MetaState(m.nodes, m.edges, m.chunks, m.symlinks, m.nextInode, m.nextSlice));
    next := new Vfs(meta, cache);
    assert next.View() == ApplySys(s, OfCache(Crash(torn)));
  }

  /** Dies and mounts again: if the log can be read, and is one that replay can use, every file is as before. */
  method Survive(vfs: Vfs, torn: Bytes, logFaults: nat -> Option<nat>, around: Surroundings)
    returns (next: Vfs, ghost es: seq<SysEvent>)
    requires vfs.cache.Valid() && SysInv(vfs.View()) && EnabledSys(vfs.View(), OfCache(Crash(torn)))
    requires Recoverable(Apply(vfs.View().cache, Crash(torn))) && logFaults(0).None?
    modifies vfs.cache.inner
    ensures fresh(next) && fresh(next.meta) && fresh(next.cache) && fresh(next.cache.wal)
    ensures next.cache.inner == vfs.cache.inner && next.Valid()
    ensures next.meta.View() == old(vfs.meta.View()) && SameContents(old(vfs.View()), next.View())
    ensures RecoversTo(ApplySys(old(vfs.View()), OfCache(Crash(torn))), es, next.View())
    ensures old(vfs.cache.inner.calls) <= next.cache.inner.calls
  {
    hide SysInv, Inv, DiskValid, Mirrors, ParseAll, Aligned, Encode, EnabledSys, Recoverable, Content;
    ghost var s := vfs.View();
    next := Reboot(vfs, torn, logFaults, around);
    ghost var c := next.View();
    SysEventKeepsContents(s, OfCache(Crash(torn)));
    es := next.Init();
  }

  /** Write, die, mount again, read: the bytes written. */
  method WriteThenCrash(vfs: Vfs, inode: nat, offset: nat, data: Bytes, torn: Bytes,
                        logFaults: nat -> Option<nat>, around: Surroundings)
    returns (r: Result<Bytes, VfsError>)
    requires vfs.Valid() && vfs.cache.LogWhole() && vfs.cache.wal.Reliable() && logFaults(0).None?
    requires inode in vfs.meta.nodes && vfs.meta.nodes[inode].kind == Regular
    requires vfs.meta.nextSlice + |data| <= MAX_IDS && offset + |data| <= MAX_OFFSET
    requires torn == [] || exists rec: Record :: Fits(rec) && torn < Encode(rec)
    modifies vfs, vfs.meta, vfs.cache, vfs.cache.wal, vfs.cache.inner
    ensures r.Ok? ==> r.value == data
    ensures vfs.cache.inner.WorkedFor(old(vfs.cache.inner.calls), vfs.cache.inner.calls) ==> r == Ok(data)
  {
    hide SysInv, Inv, DiskValid, Mirrors, ParseAll, Aligned, Encode, Recoverable, Content, TornInside, Fits, Performs,
      Did, Overlaid, SameContents, RecoversTo, AllKeepFiles, TieredCache.View;
    ghost var s := vfs.View();
    var written, es := vfs.Write(inode, offset, data);
    ghost var t := vfs.View();
    vfs.cache.Fields();
    WholeLogSurvives(t.cache, torn);
    var next, es1 := Survive(vfs, torn, logFaults, around);
    r := ReadWritten(next, s, t, inode, offset, data);
  }

  method ReadWritten(vfs: Vfs, ghost s: Sys, ghost t: Sys, inode: nat, offset: nat, data: Bytes)
    returns (r: Result<Bytes, VfsError>)
    requires vfs.Valid() && vfs.meta.View() == t.meta && SameContents(t, vfs.View())
    requires inode in vfs.meta.nodes && vfs.meta.nodes[inode].kind == Regular
    requires offset + |data| <= MAX_OFFSET && Did(s, t, inode, WriteAt(offset, data))
    modifies vfs.cache, vfs.cache.inner
    ensures r.Ok? ==> r.value == data
    ensures vfs.cache.inner.WorkedFor(old(vfs.cache.inner.calls), vfs.cache.inner.calls) ==> r.Ok?
    ensures old(vfs.cache.inner.calls) <= vfs.cache.inner.calls
  {
    hide SysInv, Inv, DiskValid, Mirrors, Content, Performs, Did, SameContents, Visible, FileOf, ReadTold, IdsIn,
      AllKeepFiles, TieredCache.View;
    ghost var u, before := vfs.View(), vfs.Measured();
    ReadsBack(s, t, u, inode, offset, data);
    var answer, es := vfs.Read(inode, offset, |data|);
    r := answer;
    if offset < vfs.meta.nodes[inode].size {
      vfs.cache.Fields();
      ToldOk(r, IdsIn(u.meta, inode, offset, offset + |data|), before, vfs.Measured(), vfs.cache.around.evicts,
             vfs.cache.inner.faults);
    }
  }

  /** A log of whole records can be replayed, whatever a torn append leaves behind it. */
  lemma WholeLogSurvives(c: CacheState, torn: Bytes)
    requires Inv(c) && c.sound && Aligned(c.wal) && Enabled(c, Crash(torn))
    ensures Recoverable(Apply(c, Crash(torn)))
  {
    hide Inv, Aligned, ParseAll, Encode, Recoverable;
    EventKeepsInv(c, Crash(torn));
    SoundIsRecoverable(Apply(c, Crash(torn)));
  }

  lemma ReadsBack(s: Sys, t: Sys, u: Sys, inode: nat, offset: nat, data: Bytes)
    requires Did(s, t, inode, WriteAt(offset, data)) && SameContents(t, u) && u.meta == t.meta
    requires offset + |data| <= MAX_OFFSET
    ensures |Visible(FileOf(u, inode))| == u.meta.nodes[inode].size >= offset + |data|
    ensures Visible(FileOf(u, inode))[offset..offset + |data|] == data
  {
    hide Content;
    var f := FileOf(u, inode);
    forall k | 0 <= k < |data| ensures f.at(offset + k) == data[k] {
      assert FileOf(t, inode).at(offset + k) == StepSparse(FileOf(s, inode), WriteAt(offset, data)).at(offset + k);
    }
  }

  lemma ToldOk(r: Result<Bytes, VfsError>, ids: iset<nat>, a: Gauge, b: Gauge, evicts: nat -> set<nat>,
               faults: nat -> Option<Fault>)
    requires ReadTold(r, ids, a, b, evicts, faults) && b.c.inflight == map[]
    ensures a.calls <= b.calls && ((forall n | a.calls <= n < b.calls :: faults(n).None?) ==> r.Ok?)
  {
  }
}
