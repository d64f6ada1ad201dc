/** The tiered write-back cache. Every method hands back, as a ghost result, the events of
    CacheModel that it performed, one per atomic effect. */
module TieredCaches {
  import opened Types
  import opened WriteAheadLog
  import opened CacheModel
  import opened DataEngines
  import opened SliceKey

  /** What happens beside the code, by number: what L1 drops at an insert, and which L2 writes and
      removals fail. */
  datatype Surroundings = Surroundings(evicts: nat -> set<nat>, diskFails: nat -> bool)

  class TieredCache {
    const inner: DataEngine
    const wal: Wal
    const diskBase: Option<string>
    const diskMax: nat
    const around: Surroundings
    var inserts: nat
    var diskCalls: nat
    var l1: Store
    var dirtyData: Store
    var files: map<string, Bytes>
    var diskUsed: nat
    /** The L2 files seen by slice id. */
    ghost var disk: Store
    ghost var inflight: Store
    ghost var mounted: bool
    ghost var sound: bool
    ghost var truth: Store
    ghost var live: set<nat>

    ghost function View(): CacheState
      reads this, wal`file, inner`slices
    {
      CacheState(wal.file, disk, inner.slices, dirtyData, inflight, l1, map[], diskUsed, diskMax, mounted, sound,
                 truth, live)
    }

    lemma Fields()
      ensures var c := View();
              && c.wal == wal.file && c.l2 == disk && c.backend == inner.slices && c.dirty == dirtyData && c.l1 == l1
              && c.inflight == inflight && c.diskUsed == diskUsed && c.mounted == mounted && c.truth == truth
              && c.live == live && c.sound == sound
    {
    }

    ghost predicate Valid()
      reads this, wal`file, inner`objects, inner`slices
    {
      inner.Valid() && Inv(View()) && DiskValid(diskBase, files, disk)
    }

    /** The log ends on a record boundary and always has when it was appended to. */
    ghost predicate LogWhole()
      reads this`sound, wal`file
    {
      sound && Aligned(wal.file)
    }

    /** The ids the backend has or a flush will bring it. */
    ghost function Stored(): set<nat>
      reads this`dirtyData, inner`slices
    {
      dirtyData.Keys + inner.slices.Keys
    }

    /** A mounted file system, perhaps with a flush under way. */
    ghost predicate Running()
      reads this, wal`file, inner`objects, inner`slices
    {
      Valid() && mounted
    }

    /** ... and none under way. */
    ghost predicate Ready()
      reads this, wal`file, inner`objects, inner`slices
    {
      Running() && inflight == map[]
    }

    /** An L2 file of this many bytes fits below the bound. */
    predicate HasRoom(len: nat)
      reads this`diskUsed
    {
      diskBase.Some? && diskUsed + len <= diskMax
    }

    /** The next L2 write or removal will not fail. */
    predicate DiskWorks()
      reads this`diskCalls
    {
      !around.diskFails(diskCalls)
    }

    /** The next L2 write stores these bytes. */
    predicate DiskTakes(data: Bytes)
      reads this`diskUsed, this`diskCalls
    {
      HasRoom(|data|) && DiskWorks()
    }

    /** A process starting over what survived: memory is empty and `disk_used` is zero. */
    constructor (inner: DataEngine, wal: Wal, diskBase: Option<string>, diskMax: nat, around: Surroundings,
                 files: map<string, Bytes>, ghost disk: Store, ghost sound: bool, ghost truth: Store,
                 ghost live: set<nat>)
      requires inner.Valid() && DiskValid(diskBase, files, disk)
      requires Inv(CacheState(wal.file, disk, inner.slices, map[], map[], map[], map[], 0, diskMax, false, sound,
                              truth, live))
      ensures Valid() && this.inner == inner && this.wal == wal && this.diskBase == diskBase
      ensures this.files == files && this.around == around && inserts == 0 && diskCalls == 0
      ensures View() ==
                CacheState(wal.file, disk, inner.slices, map[], map[], map[], map[], 0, diskMax, false, sound,
                           truth, live)
      ensures disk == map[] ==> Accounted(View())
    {
      this.inner := inner;
      this.wal := wal;
      this.diskBase := diskBase;
      this.diskMax := diskMax;
      this.around := around;
      inserts, diskCalls := 0, 0;
      this.files, this.disk := files, disk;
      l1, dirtyData, diskUsed := map[], map[], 0;
      inflight, mounted := map[], false;
      this.sound, this.truth, this.live := sound, truth, live;
    }

    /** L1 accepts the entry and may evict any entries, this one included. */
    method L1Insert(id: nat, data: Bytes) returns (ghost es: seq<Event>)
      requires Valid() && Written(View(), id, data)
      modifies this`l1, this`inserts
      ensures Valid() && Does(old(View()), es, View()) && AllQuiet(es)
      ensures Accounted(old(View())) ==> Accounted(View())
      ensures View() == old(View()).(l1 := l1) && inserts == old(inserts) + 1
      ensures l1 == old(l1)[id := data] - around.evicts(old(inserts))
    {
      hide Inv, Accounted, Does, ParseAll, Aligned, Encode, DiskValid, Mirrors;
      ghost var c := View();
      l1 := l1[id := data];
      One(c, FillL1(id, data));
      ghost var c1 := View();
      assert c1 == Apply(c, FillL1(id, data));
      var evicted := around.evicts(inserts);
      inserts := inserts + 1;
      l1 := l1 - evicted;
      assert View() == Apply(c1, Evict(evicted));
      es := AndThen(c, [FillL1(id, data)], c1, Evict(evicted));
    }

    method DiskRead(id: nat) returns (r: Option<Bytes>)
      requires DiskValid(diskBase, files, disk)
      ensures r == if id in disk then Some(disk[id]) else None
    {
      if diskBase.None? {
        return None;
      }
      var path := DiskKey(diskBase.value, id);
      return if path in files then Some(files[path]) else None;
    }

    /** The file is written, and then counted. */
    method StoreFile(id: nat, data: Bytes) returns (ghost es: seq<Event>)
      requires Valid() && Written(View(), id, data) && HasRoom(|data|)
      modifies this`files, this`disk, this`diskUsed, this`diskCalls
      ensures Valid() && Does(old(View()), es, View()) && AllQuiet(es)
      ensures Accounted(old(View())) && FirstFor(old(View()), id, data) ==> Accounted(View())
      ensures View() == if old(DiskWorks()) then WithFile(old(View()), id, data) else old(View())
      ensures diskCalls == old(diskCalls) + 1
    {
      hide Inv, Accounted, Does, ParseAll, Aligned, Encode, DiskValid, Mirrors, Apply, Enabled, DiskKey, AllQuiet,
        FirstFor;
      ghost var c := View();
      var path := DiskKey(diskBase.value, id);
      var ok := !around.diskFails(diskCalls);
      diskCalls := diskCalls + 1;
      assert View() == c;
      if ok {
        es := FillRun(c, id, data);
        FilePut(diskBase.value, files, disk, id, data);
        files := files[path := data];
        disk := disk[id := data];
        diskUsed := diskUsed + |data|;
        assert View() == WithFile(c, id, data);
      } else {
        es := AbandonedRun(c, id, data);
      }
    }

    method DiskWrite(id: nat, data: Bytes) returns (ghost es: seq<Event>)
      requires Valid() && Written(View(), id, data)
      modifies this`files, this`disk, this`diskUsed, this`diskCalls
      ensures Valid() && Does(old(View()), es, View()) && AllQuiet(es)
      ensures Accounted(old(View())) && FirstFor(old(View()), id, data) ==> Accounted(View())
      ensures View() == if old(DiskTakes(data)) then WithFile(old(View()), id, data) else old(View())
      ensures diskCalls == old(diskCalls) + if old(HasRoom(|data|)) then 1 else 0
    {
      hide Inv, Accounted, Does, ParseAll, Aligned, Encode, DiskValid, Mirrors, Apply, Enabled, DiskKey, AllQuiet,
        Written, View, Valid, FirstFor, WithFile;
      es := [];
      Nothing(View());
      if diskBase.None? {
        return;
      }
      var len := |data|;
      if diskUsed + len > diskMax {
        return;
      }
      es := StoreFile(id, data);
    }

    method RemoveFile(id: nat) returns (ghost es: seq<Event>)
      requires Valid() && id in disk
      modifies this`files, this`disk, this`diskUsed, this`diskCalls
      ensures Valid() && Does(old(View()), es, View()) && AllQuiet(es)
      ensures Accounted(old(View())) ==> Accounted(View())
      ensures View() == if old(DiskWorks()) then WithoutFile(old(View()), id) else old(View())
      ensures diskCalls == old(diskCalls) + 1
    {
      hide Inv, Accounted, Does, ParseAll, Aligned, Encode, DiskValid, Mirrors, Apply, Enabled, DiskKey, AllQuiet;
      ghost var c := View();
      Nothing(c);
      NoFiles(diskBase, files, disk);
      FileAt(diskBase.value, files, disk, id);
      es := [];
      var path := DiskKey(diskBase.value, id);
      var len := |files[path]|;
      var ok := !around.diskFails(diskCalls);
      diskCalls := diskCalls + 1;
      assert View() == c;
      if ok {
        FileDrop(diskBase.value, files, disk, id);
        files := files - {path};
        disk := disk - {id};
        diskUsed := diskUsed - Min(len, diskUsed);
        es := [DropL2(id)];
        DroppedFile(c, id);
        assert View() == WithoutFile(c, id);
      }
    }

    method DiskDelete(id: nat) returns (ghost es: seq<Event>)
      requires Valid()
      modifies this`files, this`disk, this`diskUsed, this`diskCalls
      ensures Valid() && Does(old(View()), es, View()) && AllQuiet(es)
      ensures Accounted(old(View())) ==> Accounted(View())
      ensures View() == if old(id in disk && DiskWorks()) then WithoutFile(old(View()), id) else old(View())
      ensures diskCalls == old(diskCalls) + if id in old(disk) then 1 else 0
    {
      hide Inv, Accounted, Does, ParseAll, Aligned, Encode, DiskValid, Mirrors, Apply, Enabled, DiskKey, AllQuiet,
        View, WithoutFile;
      es := [];
      Nothing(View());
      NoFiles(diskBase, files, disk);
      if diskBase.None? {
        return;
      }
      var path := DiskKey(diskBase.value, id);
      FileAt(diskBase.value, files, disk, id);
      if path in files {
        es := RemoveFile(id);
      }
    }

    /** The miss: ask the backend, and keep what it answers in L1 and, if it fits, in L2. */
    method ReadBackend(id: nat) returns (r: Result<Bytes, DataError>, ghost es: seq<Event>)
      requires Running() && id !in disk
      modifies this`l1, this`inserts, this`files, this`disk, this`diskUsed, this`diskCalls, inner`calls
      ensures Running() && Does(old(View()), es, View()) && AllQuiet(es)
      ensures Accounted(old(View())) && id !in dirtyData && id !in inflight ==> Accounted(View())
      ensures r == old(inner.Answer(id)) && inner.calls == old(inner.calls) + 1
      ensures r.Ok? ==> Written(View(), id, r.value) && id in inner.slices && r.value == inner.slices[id]
      ensures r.Err? ==> View() == old(View()) && inserts == old(inserts) && diskCalls == old(diskCalls)
      ensures View() == old(View()).(l1 := l1, l2 := disk, diskUsed := diskUsed)
      ensures r.Ok? ==> l1 == old(l1)[id := r.value] - around.evicts(old(inserts)) && inserts == old(inserts) + 1
      ensures r.Ok? ==> disk == if old(DiskTakes(inner.slices[id])) then old(disk)[id := r.value] else old(disk)
    {
      hide Does, Accounted, ParseAll, Aligned, Encode, Enabled, Apply, DiskValid, Mirrors, Inv, AllQuiet, DiskTakes;
      ghost var c := View();
      es := [];
      Nothing(c);
      FoundIsWritten(c, id);
      r := inner.ReadSlice(id);
      if r.Err? {
        return;
      }
      es := L1Insert(id, r.value);
      ghost var c1, es1 := View(), es;
      es := DiskWrite(id, r.value);
      Then(c, es1, c1, es, View());
      es := es1 + es;
    }

    /** The tiers of the cache itself; what is found in L2 goes to L1. */
    method ReadTiers(id: nat) returns (r: Option<Bytes>, ghost es: seq<Event>)
      requires Running()
      modifies this`l1, this`inserts
      ensures Running() && Does(old(View()), es, View()) && AllQuiet(es)
      ensures Accounted(old(View())) ==> Accounted(View())
      ensures r.Some? <==> old(Held(View(), id))
      ensures r.Some? ==> Written(View(), id, r.value) && Lookup(old(View()), id) == r
      ensures View() == old(View()).(l1 := l1)
      ensures r.None? || old(id in dirtyData || id in l1) ==> l1 == old(l1) && inserts == old(inserts)
      ensures r.Some? && !old(id in dirtyData || id in l1) ==>
                l1 == old(l1)[id := r.value] - around.evicts(old(inserts)) && inserts == old(inserts) + 1
    {
      hide Does, Accounted, ParseAll, Aligned, Encode, Enabled, Apply, DiskValid, Mirrors, Inv, AllQuiet;
      es := [];
      ghost var c := View();
      Nothing(c);
      FoundIsWritten(c, id);
      if id in dirtyData {
        return Some(dirtyData[id]), es;
      }
      if id in l1 {
        return Some(l1[id]), es;
      }
      r := DiskRead(id);
      if r.Some? {
        es := L1Insert(id, r.value);
      }
    }

    /** Whatever tier answers, the bytes are those the id was written with. A live id is reported missing
        only while a flush has it in hand and no tier has a copy. Reading changes no contents. */
    method ReadSlice(id: nat) returns (r: Result<Bytes, DataError>, ghost es: seq<Event>)
      requires Running()
      modifies this`l1, this`inserts, this`files, this`disk, this`diskUsed, this`diskCalls, inner`calls
      ensures Running() && Does(old(View()), es, View()) && AllQuiet(es)
      ensures Accounted(old(View())) && id !in inflight ==> Accounted(View())
      ensures r.Ok? ==> Written(View(), id, r.value) && Lookup(old(View()), id) == Some(r.value)
      ensures r.Err? ==> View() == old(View()) && inserts == old(inserts) && diskCalls == old(diskCalls)
      ensures View() == old(View()).(l1 := l1, l2 := disk, diskUsed := diskUsed)
      ensures old(Held(View(), id)) ==> r.Ok? && inner.calls == old(inner.calls)
      ensures old(Held(View(), id)) ==> disk == old(disk) && diskUsed == old(diskUsed)
      ensures !old(Held(View(), id)) ==> r == old(inner.Answer(id)) && inner.calls == old(inner.calls) + 1
      ensures old(id in dirtyData || id in l1) ==> l1 == old(l1) && inserts == old(inserts)
      ensures r.Ok? && !old(id in dirtyData || id in l1) ==>
                l1 == old(l1)[id := r.value] - around.evicts(old(inserts)) && inserts == old(inserts) + 1
      ensures r.Err? && r.error != Backend && id in live ==> id in inflight
      ensures r.Ok? && !old(Held(View(), id)) ==>
                disk == if old(DiskTakes(inner.slices[id])) then old(disk)[id := r.value] else old(disk)
    {
      hide Does, Accounted, ParseAll, Aligned, Encode, Enabled, Apply, DiskValid, Mirrors, Inv, AllQuiet, DiskTakes;
      FoundIsWritten(View(), id);
      var found, es0 := ReadTiers(id);
      es := es0;
      if found.Some? {
        return Ok(found.value), es;
      }
      r, es := ReadBackend(id);
    }

    method LogSlice(id: nat, data: Bytes)
      requires Valid() && id !in truth && Fits(Record(id, data))
      modifies this`sound, this`truth, wal
      ensures Valid() && View() == Appended(old(View()), id, data, old(wal.Reach(Record(id, data))))
      ensures Written(View(), id, data) && LogWhole() == sound && sound == old(LogWhole() && wal.Reaches(id, data))
      ensures wal.Reliable() ==> LogWhole() == old(LogWhole())
      ensures wal.calls == old(wal.calls) + 1
      ensures Accounted(old(View())) ==> Accounted(View())
    {
      hide Inv, Accounted, Does, ParseAll, Aligned, Encode, DiskValid, Mirrors, Apply, Enabled, Written, Logged;
      ghost var c, reached := View(), wal.Reach(Record(id, data));
      AppendRun(c, id, data, reached);
      ghost var c1 := Appended(c, id, data, reached);
      var ignored := wal.Append(id, data);
      sound := c1.sound;
      truth := c1.truth;
      assert wal.file == c1.wal;
      assert View() == c1;
    }

    /** Log, L1, dirty set, in that order. The id must be new. Behind a torn tail, or if the append fails,
        which nobody notices, the log misses the slice; `sound` says so until a flush clears the log. */
    method WriteSlice(id: nat, data: Bytes) returns (ghost es: seq<Event>)
      requires Ready() && id !in truth && Fits(Record(id, data))
      modifies this, wal
      ensures Ready() && Does(old(View()), es, View())
      ensures Accounted(old(View())) ==> Accounted(View())
      ensures truth == old(truth)[id := data] && live == old(live) + {id}
      ensures dirtyData == old(dirtyData)[id := data]
      ensures LogWhole() == sound && sound == old(LogWhole() && wal.Reaches(id, data))
      ensures wal.Reliable() ==> LogWhole() == old(LogWhole())
      ensures wal.file == old(wal.file) + old(wal.Reach(Record(id, data))) && wal.calls == old(wal.calls) + 1
      ensures inner.slices == old(inner.slices) && disk == old(disk) && diskUsed == old(diskUsed)
      ensures l1 == old(l1)[id := data] - around.evicts(old(inserts)) && inserts == old(inserts) + 1
      ensures forall e | e in es :: !e.Kill? && (e.Append? ==> e.id == id)
    {
      hide Inv, Accounted, Does, ParseAll, Aligned, Encode, DiskValid, Mirrors, Apply, Enabled;
      ghost var c, reached := View(), wal.Reach(Record(id, data));
      LogSlice(id, data);
      var es1 := L1Insert(id, data);
      ghost var c2 := View();
      dirtyData := dirtyData[id := data];
      live := live + {id};
      es := BufferRun(c, id, data, reached, es1, c2);
    }

    /** Removes the id from every tier; errors are ignored, so stale copies may stay behind. */
    method DeleteSlice(id: nat) returns (ghost es: seq<Event>)
      requires Ready()
      modifies this, inner
      ensures Ready() && Does(old(View()), es, View())
      ensures Accounted(old(View())) ==> Accounted(View())
      ensures truth == old(truth) && live == old(live) - {id} && id !in dirtyData && id !in l1
      ensures LogWhole() == old(LogWhole()) && sound == old(sound)
      ensures dirtyData == old(dirtyData) - {id}
      ensures inner.slices ==
                if Landed(inner.faults(old(inner.calls))) then old(inner.slices) - {id} else old(inner.slices)
      ensures inner.calls == old(inner.calls) + 1 && l1 == old(l1) - {id}
      ensures Stored() <= old(Stored()) && (old(inner.Works()) ==> id !in Stored())
      ensures disk == if old(DiskWorks()) then old(disk) - {id} else old(disk)
      ensures forall e | e in es :: !e.Append? && (e.Kill? ==> e.id == id)
    {
      hide Inv, Accounted, Does, ParseAll, Aligned, Encode, DiskValid, Mirrors, Valid, Apply, Enabled,
        View, AllQuiet;
      ghost var c := View();
      es := DropMemory(id);
      Fields();
      ghost var c1 := View();
      var es1 := DiskDelete(id);
      ghost var c2 := View();
      Fields();
      var es2 := DropObject(id);
      es := DropRun(c, es, c1, es1, c2, es2, View(), id);
    }

    method DropMemory(id: nat) returns (ghost es: seq<Event>)
      requires Ready()
      modifies this`live, this`dirtyData, this`l1
      ensures Ready() && Does(old(View()), es, View())
      ensures live == old(live) - {id} && dirtyData == old(dirtyData) - {id} && l1 == old(l1) - {id}
      ensures Accounted(old(View())) ==> Accounted(View())
      ensures forall e | e in es :: !e.Append? && (e.Kill? ==> e.id == id)
    {
      hide Inv, Accounted, Does, ParseAll, Aligned, Encode, DiskValid, Mirrors;
      ghost var c := View();
      live := live - {id};
      dirtyData := dirtyData - {id};
      l1 := l1 - {id};
      es := ForgetRun(c, id);
      assert View() == Forgotten(c, id);
    }

    /** Asks the backend to delete the slice; whether it did is ignored. */
    method DropObject(id: nat) returns (ghost es: seq<Event>)
      requires Valid() && id !in live
      modifies inner
      ensures Valid() && Does(old(View()), es, View())
      ensures Accounted(old(View())) ==> Accounted(View())
      ensures View() == old(View()).(backend := inner.slices) && inner.calls == old(inner.calls) + 1
      ensures inner.slices ==
                if Landed(inner.faults(old(inner.calls))) then old(inner.slices) - {id} else old(inner.slices)
      ensures es == [] || es == [DropBackend(id)]
    {
      hide Inv, Accounted, Does, ParseAll, Aligned, Encode, DiskValid, Mirrors;
      ghost var c := View();
      es := [];
      Nothing(c);
      ghost var landed := Landed(inner.faults(inner.calls));
      var ignored := inner.DeleteSlice(id);
      assert View() == c.(backend := inner.slices);
      if landed {
        One(c, DropBackend(id));
        es := [DropBackend(id)];
      } else {
        assert View() == c;
      }
    }

    /** Takes everything out of the dirty set. */
    method TakeDirty() returns (items: Store, ghost es: seq<Event>)
      requires Ready()
      modifies this`dirtyData, this`inflight
      ensures Running() && Does(old(View()), es, View()) && AllQuiet(es)
      ensures Accounted(old(View())) ==> Accounted(View())
      ensures items == old(dirtyData) && inflight == items && dirtyData == map[]
    {
      hide Inv, Accounted, Does, ParseAll, Aligned, Encode, DiskValid, Mirrors;
      ghost var c := View();
      items := dirtyData;
      dirtyData := map[];
      inflight := items;
      assert View() == Apply(c, Drain);
      One(c, Drain);
      es := [Drain];
    }

    /** Drain, PUT every drained slice once, then settle each one: an L2 copy, or back to the dirty set,
        which happens to those whose PUT failed. */
    method FlushDirtyInner() returns (r: Result<(), DataError>, ghost es: seq<Event>, ghost order: seq<nat>)
      requires Ready()
      modifies this, inner
      ensures Ready() && Does(old(View()), es, View()) && AllQuiet(es)
      ensures Accounted(old(View())) ==> Accounted(View())
      ensures truth == old(truth) && live == old(live) && l1 == old(l1) && sound == old(sound)
      ensures inserts == old(inserts)
      ensures r == if dirtyData == map[] then Ok(()) else Err(Backend)
      ensures Enumerates(order, old(dirtyData)) && inner.calls == old(inner.calls) + |order|
      ensures PutsRan(old(inner.slices), inner.slices, old(dirtyData), order, inner.faults, old(inner.calls))
      ensures dirtyData == old(dirtyData) - FailsNot(order, inner.faults, old(inner.calls))
      ensures r.Ok? <==> inner.WorkedFor(old(inner.calls), inner.calls)
    {
      hide Inv, Accounted, Does, ParseAll, Aligned, Encode, DiskValid, Mirrors, Apply, Enabled, Enumerates, PutsRan,
        AllQuiet, View, Valid, FailsNot;
      ghost var c := View();
      var items, es0 := TakeDirty();
      ghost var c1 := View();
      var reported, es1, puts := PutAll(items);
      order := puts;
      ghost var c2 := View();
      Then(c, es0, c1, es1, c2);
      var failed, es2 := SettleAll(items, reported);
      Then(c, es0 + es1, c2, es2, View());
      es := es0 + es1 + es2;
      NoneFailed(items, order, inner.faults, old(inner.calls));
      if failed {
        return Err(Backend), es, order;
      }
      return Ok(()), es, order;
    }

    /** The parallel PUTs, one per item, completing in the order handed back; `reported` are those that
        returned Ok. */
    method PutAll(items: Store) returns (reported: set<nat>, ghost es: seq<Event>, ghost order: seq<nat>)
      requires Valid() && mounted && inflight == items
      modifies inner
      ensures Valid() && Does(old(View()), es, View()) && AllQuiet(es)
      ensures Accounted(old(View())) ==> Accounted(View())
      ensures reported <= items.Keys && reported <= inner.slices.Keys
      ensures Enumerates(order, items) && inner.calls == old(inner.calls) + |order|
      ensures PutsRan(old(inner.slices), inner.slices, items, order, inner.faults, old(inner.calls))
      ensures reported == FailsNot(order, inner.faults, old(inner.calls))
    {
      hide Inv, Accounted, Does, ParseAll, Aligned, Encode, DiskValid, Mirrors, Apply, Enabled, AllQuiet, PutsRan,
        Enumerates, Landed, View, FailsNot, Valid;
      ghost var c, first := View(), inner.calls;
      ghost var before := inner.slices;
      reported, es, order := {}, [], [];
      var todo := items.Keys;
      Nothing(c);
      NoPuts(before, items, inner.faults, first);
      while todo != {}
        invariant todo <= items.Keys && Valid() && Does(c, es, View()) && AllQuiet(es)
        invariant Accounted(c) ==> Accounted(View())
        invariant inner.calls == first + |order| && Listed(order, items, todo)
        invariant PutsRan(before, inner.slices, items, order, inner.faults, first)
        invariant reported == FailsNot(order, inner.faults, first)
        decreases todo
      {
        var id :| id in todo;
        ghost var c1, middle := View(), inner.slices;
        var ok, es1 := PutOne(id, items[id]);
        Then(c, es, c1, es1, View());
        es := es + es1;
        OnePut(before, middle, inner.slices, items, order, inner.faults, first, id, todo);
        order := order + [id];
        if ok {
          reported := reported + {id};
        }
        todo := todo - {id};
      }
      AllPut(before, inner.slices, items, order, inner.faults, first);
    }

    method PutOne(id: nat, data: Bytes) returns (ok: bool, ghost es: seq<Event>)
      requires Valid() && id in inflight && inflight[id] == data
      modifies inner
      ensures Valid() && Does(old(View()), es, View()) && AllQuiet(es)
      ensures Accounted(old(View())) ==> Accounted(View())
      ensures View() == old(View()).(backend := inner.slices)
      ensures ok == old(inner.Works()) && inner.calls == old(inner.calls) + 1
      ensures inner.slices ==
                if Landed(inner.faults(old(inner.calls))) then old(inner.slices)[id := data] else old(inner.slices)
    {
      hide Inv, Accounted, Does, ParseAll, Aligned, Encode, DiskValid, Mirrors, Apply, Enabled, AllQuiet;
      ghost var c, landed := View(), Landed(inner.faults(inner.calls));
      es := [];
      Nothing(c);
      ok := inner.WriteSlice(id, data);
      if landed {
        PutLands(c, id);
        es := [Put(id)];
      }
      assert View() == c.(backend := inner.slices);
    }

    /** One result of the join: an L2 copy for a success, back to the dirty set for a failure. */
    method SettleOne(id: nat, data: Bytes, ok: bool) returns (ghost es: seq<Event>)
      requires Valid() && id in inflight && inflight[id] == data && id !in dirtyData
      requires ok ==> id in inner.slices
      modifies this`inflight, this`dirtyData, this`files, this`disk, this`diskUsed, this`diskCalls
      ensures Valid() && Does(old(View()), es, View()) && AllQuiet(es)
      ensures Accounted(old(View())) ==> Accounted(View())
      ensures View() == old(View()).(dirty := dirtyData, inflight := inflight, l2 := disk, diskUsed := diskUsed)
      ensures inflight == old(inflight) - {id}
      ensures dirtyData == if ok then old(dirtyData) else old(dirtyData)[id := data]
      ensures disk == if ok && old(DiskTakes(data)) then old(disk)[id := data] else old(disk)
    {
      hide Inv, Accounted, Does, ParseAll, Aligned, Encode, Apply, Enabled, DiskValid, Mirrors;
      ghost var c := View();
      inflight := inflight - {id};
      if ok {
        ghost var c1 := View();
        SettledSlice(c, id);
        es := DiskWrite(id, data);
        Then(c, [Settle(id)], c1, es, View());
        es := [Settle(id)] + es;
      } else {
        dirtyData := dirtyData[id := data];
        RetriedSlice(c, id);
        es := [Retry(id)];
      }
    }

    method SettleAll(items: Store, reported: set<nat>) returns (failed: bool, ghost es: seq<Event>)
      requires Valid() && mounted && inflight == items && dirtyData == map[]
      requires reported <= items.Keys && reported <= inner.slices.Keys
      modifies this`inflight, this`dirtyData, this`files, this`disk, this`diskUsed, this`diskCalls
      ensures Valid() && mounted && inflight == map[] && Does(old(View()), es, View()) && AllQuiet(es)
      ensures Accounted(old(View())) ==> Accounted(View())
      ensures dirtyData == items - reported
      ensures failed <==> dirtyData != map[]
    {
      hide *;
      ghost var c := View();
      es := [];
      failed := false;
      var todo := items.Keys;
      Nothing(c);
      while todo != {}
        invariant todo <= items.Keys
        invariant Valid() && Does(c, es, View()) && AllQuiet(es)
        invariant Accounted(c) ==> Accounted(View())
        invariant inflight.Keys == todo && forall id | id in todo :: inflight[id] == items[id]
        invariant dirtyData.Keys == items.Keys - reported - todo
        invariant forall id | id in dirtyData :: dirtyData[id] == items[id]
        invariant failed <==> dirtyData != map[]
        decreases todo
      {
        var id :| id in todo;
        ghost var c1 := View();
        var es1 := SettleOne(id, items[id], id in reported);
        Then(c, es, c1, es1, View());
        es := es + es1;
        failed := failed || id !in reported;
        todo := todo - {id};
      }
    }

    /** When it returns Ok everything live is in the backend and the log is empty, unless clearing it
        failed, which nobody notices; otherwise the log is untouched. */
    method FlushDirty() returns (r: Result<(), DataError>, ghost es: seq<Event>, ghost order: seq<nat>)
      requires Ready()
      modifies this, inner, wal
      ensures Ready() && Does(old(View()), es, View()) && AllQuiet(es)
      ensures Accounted(old(View())) ==> Accounted(View())
      ensures truth == old(truth) && live == old(live) && l1 == old(l1)
      ensures r == if dirtyData == map[] then Ok(()) else Err(Backend)
      ensures r.Ok? <==> inner.WorkedFor(old(inner.calls), inner.calls)
      ensures Enumerates(order, old(dirtyData)) && inner.calls == old(inner.calls) + |old(dirtyData)|
      ensures PutsRan(old(inner.slices), inner.slices, old(dirtyData), order, inner.faults, old(inner.calls))
      ensures dirtyData == old(dirtyData) - FailsNot(order, inner.faults, old(inner.calls))
      ensures Stored() == old(Stored())
      ensures r.Ok? && old(wal.faults(wal.calls)) != Some(0) ==> wal.file == [] && sound
      ensures r.Ok? && old(wal.faults(wal.calls)) == Some(0) ==> wal.file == old(wal.file) && sound == old(sound)
      ensures r.Ok? ==> forall id | id in live :: id in truth && id in inner.slices && inner.slices[id] == truth[id]
      ensures r.Err? ==> wal.file == old(wal.file) && sound == old(sound) && wal.calls == old(wal.calls)
    {
      hide Inv, Accounted, Does, ParseAll, Aligned, Encode, DiskValid, Mirrors, Apply, Enabled, View, AllQuiet,
        Enumerates, PutsRan, FailsNot;
      ghost var c, items, slices := View(), dirtyData, inner.slices;
      r, es, order := FlushDirtyInner();
      PutsKeep(slices, inner.slices, items, order, inner.faults, old(inner.calls));
      CountItems(order, items);
      if r.Ok? {
        es := ClearLog(c, es);
      }
    }

    /** What a flush does behind its last PUT, if none failed. */
    method ClearLog(ghost c: CacheState, ghost es: seq<Event>) returns (ghost es': seq<Event>)
      requires Ready() && dirtyData == map[] && Inv(c) && Does(c, es, View()) && AllQuiet(es)
      modifies this`sound, wal
      ensures Ready() && Does(c, es', View()) && AllQuiet(es')
      ensures Accounted(old(View())) ==> Accounted(View())
      ensures old(wal.faults(wal.calls)) != Some(0) ==> wal.file == [] && sound
      ensures old(wal.faults(wal.calls)) == Some(0) ==> wal.file == old(wal.file) && sound == old(sound)
      ensures forall id | id in live :: id in truth && id in inner.slices && inner.slices[id] == truth[id]
    {
      hide Inv, Accounted, Does, ParseAll, Aligned, Encode, DiskValid, Mirrors, Apply, Enabled;
      ghost var c1 := View();
      es' := es;
      AllStored(c1);
      ghost var cleared := wal.faults(wal.calls) != Some(0);
      var ignored := wal.Clear();
      sound := sound || cleared;
      if cleared {
        es' := ClearedRun(c, es, c1);
      } else {
        assert View() == c1;
      }
    }

    method ReplayOne(id: nat, data: Bytes) returns (ghost es: seq<Event>)
      requires Valid() && LogAgrees(ParseAll(View().wal), View().truth) && Logged(View(), id, data)
      requires View().diskUsed == 0
      modifies this`l1, this`inserts, this`dirtyData
      ensures Valid() && Does(old(View()), es, View()) && AllQuiet(es)
      ensures Accounted(old(View())) ==> Accounted(View())
      ensures View() == old(View()).(l1 := l1, dirty := dirtyData) && dirtyData == old(dirtyData)[id := data]
      ensures l1 == old(l1)[id := data] - around.evicts(old(inserts)) && inserts == old(inserts) + 1
    {
      hide Inv, Accounted, Does, ParseAll, Aligned, Encode, DiskValid, Mirrors;
      ghost var c := View();
      ReplayedRecord(c, id, data);
      var es1 := L1Insert(id, data);
      ghost var c1 := View();
      dirtyData := dirtyData[id := data];
      assert View() == Apply(c1, Requeue(id, data));
      es := AndThen(c, es1, c1, Requeue(id, data));
    }

    /** Brings every logged record back into memory, then puts each logged slice once, and keeps those whose
        PUT fails. The log is not cleared. If it cannot be read nothing happens, and the file system runs
        without those slices. */
    method ReplayWal() returns (ghost es: seq<Event>)
      requires Valid() && Recoverable(View())
      requires !mounted && inflight == map[] && dirtyData == map[] && diskUsed == 0
      modifies this, inner, wal`calls
      ensures mounted == old(wal.Works()) && wal.calls == old(wal.calls) + 1
      ensures Valid() && inflight == map[] && Does(old(View()), es, View()) && AllQuiet(es)
      ensures Accounted(old(View())) ==> Accounted(View())
      ensures truth == old(truth) && live == old(live) && wal.file == old(wal.file) && sound == old(sound)
      ensures mounted ==> forall id | id in Ids(ParseAll(wal.file)) :: id in inner.slices || id in dirtyData
      ensures mounted ==> inner.calls == old(inner.calls) + |Ids(ParseAll(wal.file))|
      ensures mounted ==> (dirtyData == map[] <==> inner.WorkedFor(old(inner.calls), inner.calls))
      ensures mounted ==> dirtyData.Keys <= Ids(ParseAll(wal.file))
      ensures !mounted ==> View() == old(View()) && inner.calls == old(inner.calls)
    {
      hide Inv, Accounted, Does, ParseAll, Aligned, Encode, DiskValid, Mirrors, Apply, Enabled, Recoverable, LogAgrees,
        AllQuiet, View, Ids;
      ghost var c := View();
      Fields();
      var entries := wal.ReadAll();
      es := [];
      Nothing(c);
      if entries.Err? {
        return;
      }
      es := ReplayRecords(entries.value);
      Fields();
      es := Mount(c, es);
      if entries.value != [] {
        ghost var c1 := View();
        var es1 := FlushReplayed(Ids(entries.value));
        Then(c, es, c1, es1, View());
        es := es + es1;
      }
      InIds(ParseAll(wal.file));
    }

    method ReplayRecords(entries: seq<Record>) returns (ghost es: seq<Event>)
      requires Valid() && Recoverable(View()) && entries == ParseAll(View().wal)
      requires dirtyData == map[] && View().diskUsed == 0
      modifies this`l1, this`inserts, this`dirtyData
      ensures Valid() && View() == old(View()).(l1 := l1, dirty := dirtyData)
      ensures Does(old(View()), es, View()) && AllQuiet(es)
      ensures Accounted(old(View())) ==> Accounted(View())
      ensures dirtyData.Keys == Ids(entries) && inserts == old(inserts) + |entries|
    {
      hide Inv, Accounted, Does, ParseAll, Aligned, Encode, DiskValid, Mirrors, DurablyCovered, LogAgrees, Apply,
        Enabled, View, Valid, AllQuiet, Ids;
      ghost var c := View();
      es := [];
      Nothing(c);
      NoIds();
      Fields();
      for n := 0 to |entries|
        invariant Valid() && View() == c.(l1 := l1, dirty := dirtyData)
        invariant Does(c, es, View()) && AllQuiet(es)
        invariant Accounted(c) ==> Accounted(View())
        invariant dirtyData.Keys == Ids(entries[..n]) && inserts == old(inserts) + n
      {
        ghost var c1 := View();
        var es1 := ReplayOne(entries[n].id, entries[n].data);
        Then(c, es, c1, es1, View());
        es := es + es1;
        OneMoreId(entries, n);
      }
      assert entries[..|entries|] == entries;
    }

    /** The mount is complete when every record is back. */
    ghost method Mount(c: CacheState, es: seq<Event>) returns (es': seq<Event>)
      requires Valid() && Inv(c) && Recoverable(c) && View() == c.(l1 := l1, dirty := dirtyData)
      requires Does(c, es, View()) && AllQuiet(es) && dirtyData.Keys == Ids(ParseAll(c.wal))
      modifies this`mounted
      ensures Valid() && mounted && View() == old(View()).(mounted := true)
      ensures Does(c, es', View()) && AllQuiet(es')
      ensures Accounted(old(View())) ==> Accounted(View())
    {
      hide Inv, Accounted, Does, ParseAll, Aligned, Encode, DiskValid, Mirrors, Recoverable, LogAgrees, Apply, Enabled;
      var c1 := View();
      mounted := true;
      InIds(ParseAll(c.wal));
      es' := MountRun(c, es, c1);
    }

    method FlushReplayed(ghost ids: set<nat>) returns (ghost es: seq<Event>)
      requires Ready() && dirtyData.Keys == ids
      modifies this, inner
      ensures Ready() && Does(old(View()), es, View()) && AllQuiet(es)
      ensures Accounted(old(View())) ==> Accounted(View())
      ensures truth == old(truth) && live == old(live) && sound == old(sound)
      ensures forall id | id in ids :: id in inner.slices || id in dirtyData
      ensures inner.calls == old(inner.calls) + |ids| && dirtyData.Keys <= ids
      ensures dirtyData == map[] <==> inner.WorkedFor(old(inner.calls), inner.calls)
    {
      hide Inv, Accounted, Does, ParseAll, Aligned, Encode, DiskValid, Mirrors, Apply, Enabled, Valid, View, AllQuiet,
        Enumerates, PutsRan, FailsNot;
      ghost var items, slices := dirtyData, inner.slices;
      var ignored, es1, order := FlushDirtyInner();
      es := es1;
      CountItems(order, items);
      PutOrDirty(slices, inner.slices, items, order, inner.faults, old(inner.calls));
    }
  }

  /** The ids that have a record. */
  function Ids(rs: seq<Record>): set<nat> { set r | r in rs :: r.id }

  lemma NoIds()
    ensures Ids([]) == {}
  {
  }

  lemma OneMoreId(rs: seq<Record>, n: nat)
    requires n < |rs|
    ensures Ids(rs[..n + 1]) == Ids(rs[..n]) + {rs[n].id}
  {
    assert rs[..n + 1] == rs[..n] + [rs[n]];
  }

  lemma InIds(rs: seq<Record>)
    ensures forall r | r in rs :: r.id in Ids(rs)
    ensures rs == [] ==> Ids(rs) == {}
  {
  }

  /** Each item once, in some order. */
  ghost predicate Enumerates(order: seq<nat>, items: Store) {
    && |order| == |items|
    && (forall id :: id in order <==> id in items)
    && (forall i, j | 0 <= i < j < |order| :: order[i] != order[j])
  }

  ghost predicate SameAt(before: Store, after: Store, id: nat) {
    (id in before <==> id in after) && (id in before ==> after[id] == before[id])
  }

  /** The PUT of `order[i]` was the call of number `first + i`: it stored the item if it landed, and nothing
      else has changed. */
  ghost predicate PutsRan(before: Store, after: Store, items: Store, order: seq<nat>,
                          faults: nat -> Option<Fault>, first: nat) {
    && (forall id | id !in order :: SameAt(before, after, id))
    && (forall i | 0 <= i < |order| ::
          && order[i] in items
          && (if Landed(faults(first + i)) then order[i] in after && after[order[i]] == items[order[i]]
              else SameAt(before, after, order[i])))
  }

  /** The items whose PUT did not fail. */
  ghost function FailsNot(order: seq<nat>, faults: nat -> Option<Fault>, first: nat): set<nat> {
    set i | 0 <= i < |order| && faults(first + i).None? :: order[i]
  }

  /** Each item that is not still to do once. */
  ghost predicate Listed(order: seq<nat>, items: Store, todo: set<nat>) {
    && |order| + |todo| == |items|
    && (forall id :: id in order <==> id in items && id !in todo)
    && (forall i, j | 0 <= i < j < |order| :: order[i] != order[j])
  }

  lemma NoPuts(slices: Store, items: Store, faults: nat -> Option<Fault>, first: nat)
    ensures PutsRan(slices, slices, items, [], faults, first) && FailsNot([], faults, first) == {}
    ensures Listed([], items, items.Keys)
  {
    assert |items.Keys| == |items|;
  }

  lemma OnePut(before: Store, middle: Store, after: Store, items: Store, order: seq<nat>,
               faults: nat -> Option<Fault>, first: nat, id: nat, todo: set<nat>)
    requires PutsRan(before, middle, items, order, faults, first) && Listed(order, items, todo)
    requires id in todo && todo <= items.Keys
    requires after == if Landed(faults(first + |order|)) then middle[id := items[id]] else middle
    ensures PutsRan(before, after, items, order + [id], faults, first) && Listed(order + [id], items, todo - {id})
    ensures FailsNot(order + [id], faults, first) ==
            FailsNot(order, faults, first) + if faults(first + |order|).None? then {id} else {}
  {
    hide Landed;
    var order' := order + [id];
    assert forall i | 0 <= i < |order| :: order'[i] == order[i];
    assert order'[|order|] == id;
    assert |todo - {id}| == |todo| - 1;
    PutNext(before, middle, after, items, order, faults, first, id);
    FailsNotNext(order, faults, first, id);
  }

  lemma PutNext(before: Store, middle: Store, after: Store, items: Store, order: seq<nat>,
                faults: nat -> Option<Fault>, first: nat, id: nat)
    requires PutsRan(before, middle, items, order, faults, first) && id in items && id !in order
    requires after == if Landed(faults(first + |order|)) then middle[id := items[id]] else middle
    ensures PutsRan(before, after, items, order + [id], faults, first)
  {
    hide Landed;
  }

  lemma FailsNotNext(order: seq<nat>, faults: nat -> Option<Fault>, first: nat, id: nat)
    ensures FailsNot(order + [id], faults, first) ==
            FailsNot(order, faults, first) + if faults(first + |order|).None? then {id} else {}
  {
    var order' := order + [id];
    forall k ensures k in FailsNot(order', faults, first) <==>
                     k in FailsNot(order, faults, first) || (k == id && faults(first + |order|).None?)
    {
      if k in FailsNot(order, faults, first) {
        var i :| 0 <= i < |order| && faults(first + i).None? && order[i] == k;
        assert order'[i] == k;
      }
      if k == id && faults(first + |order|).None? {
        assert order'[|order|] == k;
      }
    }
  }

  lemma AllPut(before: Store, after: Store, items: Store, order: seq<nat>, faults: nat -> Option<Fault>, first: nat)
    requires Listed(order, items, {}) && PutsRan(before, after, items, order, faults, first)
    ensures Enumerates(order, items)
    ensures FailsNot(order, faults, first) <= items.Keys && FailsNot(order, faults, first) <= after.Keys
  {
  }

  lemma CountItems(order: seq<nat>, items: Store)
    requires Enumerates(order, items)
    ensures |order| == |items| == |items.Keys|
  {
  }

  /** What failed is still dirty, the rest is stored. */
  lemma PutOrDirty(before: Store, after: Store, items: Store, order: seq<nat>, faults: nat -> Option<Fault>, first: nat)
    requires Enumerates(order, items) && PutsRan(before, after, items, order, faults, first)
    ensures forall id | id in items :: id in after || id in items - FailsNot(order, faults, first)
  {
  }

  lemma NoneFailed(items: Store, order: seq<nat>, faults: nat -> Option<Fault>, first: nat)
    requires Enumerates(order, items)
    ensures items - FailsNot(order, faults, first) == map[] <==>
            forall n | first <= n < first + |order| :: faults(n).None?
  {
    var left := items - FailsNot(order, faults, first);
    if left == map[] {
      forall n | first <= n < first + |order| ensures faults(n).None? {
        var id := order[n - first];
        assert id in items && id !in left;
        var i :| 0 <= i < |order| && faults(first + i).None? && order[i] == id;
      }
    } else {
      var id :| id in left;
      var i :| 0 <= i < |order| && order[i] == id;
      assert faults(first + i).Some?;
    }
  }

  /** PUTs lose nothing: every item ends up stored or still dirty. */
  lemma PutsKeep(before: Store, after: Store, items: Store, order: seq<nat>, faults: nat -> Option<Fault>, first: nat)
    requires Enumerates(order, items) && PutsRan(before, after, items, order, faults, first)
    ensures (items - FailsNot(order, faults, first)).Keys + after.Keys == items.Keys + before.Keys
  {
    hide *;
    PutOrDirty(before, after, items, order, faults, first);
    OthersStay(before, after, items, order, faults, first);
    var left := items - FailsNot(order, faults, first);
    assert left.Keys <= items.Keys;
    forall id ensures id in left.Keys + after.Keys <==> id in items.Keys + before.Keys {
    }
  }

  lemma OthersStay(before: Store, after: Store, items: Store, order: seq<nat>,
                   faults: nat -> Option<Fault>, first: nat)
    requires Enumerates(order, items) && PutsRan(before, after, items, order, faults, first)
    ensures forall id | id !in items :: id in after <==> id in before
  {
    forall id | id !in items ensures id in after <==> id in before {
      assert id !in order;
      assert SameAt(before, after, id);
    }
  }

  /** What the cache held it still holds, but for what L1 dropped at its inserts of these numbers. */
  ghost predicate HeldOn(c: CacheState, c': CacheState, evicts: nat -> set<nat>, from: nat, to: nat) {
    && from <= to && c'.dirty == c.dirty && c.l2.Keys <= c'.l2.Keys
    && forall id | id in c.l1 && id !in c'.l1 :: exists n | from <= n < to :: id in evicts(n)
  }

  lemma FoundIsWritten(c: CacheState, id: nat)
    requires Inv(c)
    ensures id in c.dirty ==> Written(c, id, c.dirty[id])
    ensures id in c.l1 ==> Written(c, id, c.l1[id])
    ensures id in c.l2 ==> Written(c, id, c.l2[id])
    ensures id in c.backend ==> Written(c, id, c.backend[id])
    ensures c.mounted && id in c.live && id !in c.dirty && id !in c.backend ==> id in c.inflight
  {
  }

  /** A read that hands `id` to L1, or nothing. */
  lemma HeldAfterRead(c: CacheState, c': CacheState, evicts: nat -> set<nat>, n: nat, n': nat, id: nat, data: Bytes)
    requires c'.dirty == c.dirty && c.l2.Keys <= c'.l2.Keys
    requires if n' == n then c'.l1 == c.l1 else n' == n + 1 && c'.l1 == c.l1[id := data] - evicts(n)
    ensures HeldOn(c, c', evicts, n, n')
  {
    if n' == n + 1 {
      forall k | k in c.l1 && k !in c'.l1 ensures k in evicts(n) {
      }
    }
  }

  lemma HeldOnAfter(c: CacheState, c1: CacheState, c2: CacheState, evicts: nat -> set<nat>, i: nat, j: nat, k: nat)
    requires HeldOn(c, c1, evicts, i, j) && HeldOn(c1, c2, evicts, j, k)
    ensures HeldOn(c, c2, evicts, i, k)
  {
    forall id | id in c.l1 && id !in c2.l1 ensures exists n | i <= n < k :: id in evicts(n) {
      if id in c1.l1 {
        var n :| j <= n < k && id in evicts(n);
      } else {
        var n :| i <= n < j && id in evicts(n);
      }
    }
  }

  /** Replay has brought back everything the log has, so the mount is complete. */
  lemma MountRun(c: CacheState, es: seq<Event>, c1: CacheState) returns (es': seq<Event>)
    requires Recoverable(c) && c1 == c.(l1 := c1.l1, dirty := c1.dirty) && Does(c, es, c1)
    requires AllQuiet(es)
    requires forall i | 0 <= i < |ParseAll(c.wal)| :: ParseAll(c.wal)[i].id in c1.dirty
    ensures es' == es + [Mounted] && Does(c, es', c1.(mounted := true))
    ensures AllQuiet(es')
    ensures Inv(c) ==> Inv(c1.(mounted := true))
    ensures Accounted(c1) ==> Accounted(c1.(mounted := true))
  {
    hide ParseAll, Does, Inv, Accounted;
    es' := AndThen(c, es, c1, Mounted);
  }

  lemma ClearedRun(c: CacheState, es: seq<Event>, c1: CacheState) returns (es': seq<Event>)
    requires Does(c, es, c1) && AllQuiet(es) && c1.mounted && c1.dirty == map[] && c1.inflight == map[]
    ensures var c2 := c1.(wal := [], sound := true);
            && es' == es + [ClearWal] && Does(c, es', c2) && AllQuiet(es')
            && (Inv(c) ==> Inv(c2)) && (Accounted(c1) ==> Accounted(c2))
  {
    hide Does, Inv, Accounted;
    es' := AndThen(c, es, c1, ClearWal);
  }

  lemma AllStored(c: CacheState)
    requires Inv(c) && c.mounted && c.dirty == map[] && c.inflight == map[]
    ensures forall id | id in c.live :: id in c.truth && id in c.backend && c.backend[id] == c.truth[id]
  {
    assert c.live <= c.truth.Keys;
  }

  /** The cache directory, if there is one, holds exactly these slices. */
  ghost predicate DiskValid(base: Option<string>, files: map<string, Bytes>, disk: Store) {
    if base.Some? then Mirrors(base.value, files, disk) else disk == map[]
  }

  lemma NoFiles(base: Option<string>, files: map<string, Bytes>, disk: Store)
    requires DiskValid(base, files, disk)
    ensures base.None? ==> disk == map[]
  {
  }

  lemma FileAt(base: string, files: map<string, Bytes>, disk: Store, id: nat)
    requires DiskValid(Some(base), files, disk)
    ensures DiskKey(base, id) in files <==> id in disk
    ensures id in disk ==> files[DiskKey(base, id)] == disk[id]
  {
  }

  lemma FilePut(base: string, files: map<string, Bytes>, disk: Store, id: nat, data: Bytes)
    requires DiskValid(Some(base), files, disk)
    ensures DiskValid(Some(base), files[DiskKey(base, id) := data], disk[id := data])
  {
    MirrorsPut(base, files, disk, id, data);
  }

  lemma FileDrop(base: string, files: map<string, Bytes>, disk: Store, id: nat)
    requires DiskValid(Some(base), files, disk)
    ensures DiskValid(Some(base), files - {DiskKey(base, id)}, disk - {id})
  {
    MirrorsDrop(base, files, disk, id);
  }

  /** `es` is a legal run from `c` to `c'` that keeps the invariant. */
  ghost predicate Does(c: CacheState, es: seq<Event>, c': CacheState) {
    && Legal(c, es)
    && c' == Run(c, es)
    && (Inv(c) ==> Inv(c'))
  }

  lemma One(c: CacheState, e: Event)
    requires Enabled(c, e)
    ensures Does(c, [e], Apply(c, e))
    ensures Inv(c) ==> Inv(Apply(c, e))
    ensures Accounted(c) && CountsRight(c, e) ==> Accounted(Apply(c, e))
  {
    Extend(c, [], e);
    assert [] + [e] == [e];
    if Inv(c) {
      EventKeepsInv(c, e);
    }
    if Accounted(c) && CountsRight(c, e) {
      EventKeepsAccounted(c, e);
    }
  }

  lemma Then(c: CacheState, es: seq<Event>, c1: CacheState, es1: seq<Event>, c2: CacheState)
    requires Does(c, es, c1) && Does(c1, es1, c2)
    ensures Does(c, es + es1, c2)
    ensures AllQuiet(es) && AllQuiet(es1) ==> AllQuiet(es + es1)
    ensures Inv(c) ==> Inv(c2)
  {
    Concat(c, es, es1);
  }

  lemma AndThen(c: CacheState, es: seq<Event>, c1: CacheState, e: Event) returns (es': seq<Event>)
    requires Does(c, es, c1) && Enabled(c1, e)
    ensures es' == es + [e] && Does(c, es', Apply(c1, e))
    ensures Inv(c) ==> Inv(Apply(c1, e))
    ensures Accounted(c1) && CountsRight(c1, e) ==> Accounted(Apply(c1, e))
  {
    es' := es + [e];
    One(c1, e);
    Then(c, es, c1, [e], Apply(c1, e));
  }

  /** The log has what reached it and the history has the id. */
  function Appended(c: CacheState, id: nat, data: Bytes, reached: Bytes): CacheState {
    c.(wal := c.wal + reached, sound := c.sound && Aligned(c.wal) && reached == Encode(Record(id, data)),
       truth := c.truth[id := data])
  }

  lemma AppendRun(c: CacheState, id: nat, data: Bytes, reached: Bytes)
    requires Inv(c) && id !in c.truth && Fits(Record(id, data)) && reached <= Encode(Record(id, data))
    ensures var c1 := Appended(c, id, data, reached);
            && Does(c, [Append(id, data, reached)], c1) && Inv(c1) && Written(c1, id, data)
            && (c1.sound ==> Logged(c1, id, data) && Aligned(c1.wal)) && NoFile(c, id)
            && (Accounted(c) ==> Accounted(c1))
  {
    One(c, Append(id, data, reached));
    if Apply(c, Append(id, data, reached)).sound {
      AppendParses(c.wal, Record(id, data));
    }
  }

  lemma BufferRun(c: CacheState, id: nat, data: Bytes, reached: Bytes, es1: seq<Event>, c2: CacheState)
    returns (es: seq<Event>)
    requires Inv(c) && id !in c.truth && Fits(Record(id, data)) && reached <= Encode(Record(id, data))
    requires Does(Appended(c, id, data, reached), es1, c2) && AllQuiet(es1)
    requires c2 == Appended(c, id, data, reached).(l1 := c2.l1)
    ensures es == [Append(id, data, reached)] + es1 + [Buffer(id, data)]
    ensures var c3 := c2.(dirty := c2.dirty[id := data], live := c2.live + {id});
            && Does(c, es, c3) && Inv(c3) && (Accounted(c2) ==> Accounted(c3))
    ensures forall e | e in es :: !e.Kill? && (e.Append? ==> e.id == id)
  {
    hide Inv, Aligned, ParseAll, Encode, Accounted, Does, CountsRight;
    AppendRun(c, id, data, reached);
    Then(c, [Append(id, data, reached)], Appended(c, id, data, reached), es1, c2);
    FirstBuffer(c2, id, data);
    es := AndThen(c, [Append(id, data, reached)] + es1, c2, Buffer(id, data));
  }

  lemma FirstBuffer(c: CacheState, id: nat, data: Bytes)
    requires NoFile(c, id)
    ensures CountsRight(c, Buffer(id, data))
  {
  }

  /** The in-memory half of a delete. */
  function Forgotten(c: CacheState, id: nat): CacheState {
    c.(live := c.live - {id}, dirty := c.dirty - {id}, l1 := c.l1 - {id})
  }

  lemma ForgetRun(c: CacheState, id: nat) returns (es: seq<Event>)
    ensures Does(c, es, Forgotten(c, id))
    ensures Inv(c) ==> Inv(Forgotten(c, id))
    ensures Accounted(c) ==> Accounted(Forgotten(c, id))
    ensures forall e | e in es :: !e.Append? && (e.Kill? ==> e.id == id)
  {
    var c1 := Apply(c, Kill(id));
    var c2 := Apply(c1, DropDirty(id));
    One(c, Kill(id));
    es := AndThen(c, [Kill(id)], c1, DropDirty(id));
    es := AndThen(c, es, c2, Evict({id}));
  }

  lemma DropRun(c: CacheState, es0: seq<Event>, c1: CacheState, es1: seq<Event>, c2: CacheState,
                es2: seq<Event>, c3: CacheState, id: nat) returns (es: seq<Event>)
    requires Does(c, es0, c1) && Does(c1, es1, c2) && Does(c2, es2, c3) && AllQuiet(es1)
    requires es2 == [] || es2 == [DropBackend(id)]
    requires forall e | e in es0 :: !e.Append? && (e.Kill? ==> e.id == id)
    ensures es == es0 + es1 + es2 && Does(c, es, c3)
    ensures forall e | e in es :: !e.Append? && (e.Kill? ==> e.id == id)
  {
    hide Does;
    Then(c, es0, c1, es1, c2);
    Then(c, es0 + es1, c2, es2, c3);
    es := es0 + es1 + es2;
  }

  lemma Nothing(c: CacheState)
    ensures Does(c, [], c) && AllQuiet([])
  {
  }

  /** The L2 file is there and counted. */
  function WithFile(c: CacheState, id: nat, data: Bytes): CacheState {
    c.(l2 := c.l2[id := data], diskUsed := c.diskUsed + |data|)
  }

  function WithoutFile(c: CacheState, id: nat): CacheState
    requires id in c.l2
  {
    c.(l2 := c.l2 - {id}, diskUsed := c.diskUsed - Min(|c.l2[id]|, c.diskUsed))
  }

  /** The size is checked, the file written, and then counted. */
  lemma FillRun(c: CacheState, id: nat, data: Bytes) returns (es: seq<Event>)
    requires Written(c, id, data) && c.fills == map[] && c.diskUsed + |data| <= c.diskMax
    ensures es == [OpenFill(1, id, data), FillL2(1)]
    ensures var c' := WithFile(c, id, data);
            && Does(c, es, c') && AllQuiet(es) && (Inv(c) ==> Inv(c'))
            && (Accounted(c) && FirstFor(c, id, data) ==> Accounted(c'))
  {
    hide Inv, Aligned, ParseAll, Accounted, Does;
    var c1 := Apply(c, OpenFill(1, id, data));
    One(c, OpenFill(1, id, data));
    es := AndThen(c, [OpenFill(1, id, data)], c1, FillL2(1));
    assert c1.fills - {1} == map[];
  }

  lemma AbandonedRun(c: CacheState, id: nat, data: Bytes) returns (es: seq<Event>)
    requires Written(c, id, data) && c.fills == map[] && c.diskUsed + |data| <= c.diskMax
    ensures es == [OpenFill(1, id, data), DropFill(1)] && Does(c, es, c) && AllQuiet(es)
  {
    hide Inv, Aligned, ParseAll, Accounted, Does;
    var c1 := Apply(c, OpenFill(1, id, data));
    One(c, OpenFill(1, id, data));
    es := AndThen(c, [OpenFill(1, id, data)], c1, DropFill(1));
    assert c1.fills - {1} == map[];
  }

  lemma DroppedFile(c: CacheState, id: nat)
    requires id in c.l2
    ensures var c' := WithoutFile(c, id);
            && Does(c, [DropL2(id)], c') && AllQuiet([DropL2(id)])
            && (Inv(c) ==> Inv(c'))
            && (Accounted(c) ==> Accounted(c'))
  {
    One(c, DropL2(id));
  }

  lemma PutLands(c: CacheState, id: nat)
    requires id in c.inflight
    ensures var c' := c.(backend := c.backend[id := c.inflight[id]]);
            && Does(c, [Put(id)], c') && AllQuiet([Put(id)]) && (Inv(c) ==> Inv(c'))
            && (Accounted(c) ==> Accounted(c'))
  {
    One(c, Put(id));
  }

  lemma SettledSlice(c: CacheState, id: nat)
    requires Inv(c) && id in c.inflight && id !in c.dirty && id in c.backend
    ensures var data, c' := c.inflight[id], c.(inflight := c.inflight - {id});
            && Does(c, [Settle(id)], c') && Inv(c') && Written(c', id, data)
            && (Accounted(c) ==> Accounted(c') && FirstFor(c', id, data))
  {
    One(c, Settle(id));
    if id in c.l2 {
      assert c.l2[id] == c.truth[id] == c.inflight[id];
    }
  }

  lemma RetriedSlice(c: CacheState, id: nat)
    requires Inv(c) && id in c.inflight
    ensures var c' := c.(dirty := c.dirty[id := c.inflight[id]], inflight := c.inflight - {id});
            && Does(c, [Retry(id)], c') && Inv(c')
            && (Accounted(c) ==> Accounted(c'))
  {
    One(c, Retry(id));
  }

  lemma ReplayedRecord(c: CacheState, id: nat, data: Bytes)
    requires LogAgrees(ParseAll(c.wal), c.truth) && Logged(c, id, data) && c.diskUsed == 0
    ensures Written(c, id, data)
    ensures Accounted(c) ==> NoFile(c, id)
  {
    EmptyTotal(c.l2);
  }
}
