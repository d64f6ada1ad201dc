/** The tiered cache as a transition system whose events are its atomic effects.
    A crash may fall between any two of them. */
module CacheModel {
  import opened Types
  import opened WriteAheadLog

  type Store = map<nat, Bytes>

  /** `wal`, `l2` and `backend` survive a crash; `dirty`, `inflight`, `l1`, `diskUsed` do not.
      `sound` says that since it was last cleared whole records were appended to the log, at record
      boundaries only. `fills` are L2 writes that have passed the size check and are not yet counted.
      `inflight` is what a running flush has drained and not yet settled.
      `truth` is the history of all ids ever written; `live` are the ids still owed to readers. */
  datatype Fill = Fill(id: nat, data: Bytes)

  datatype CacheState = CacheState(
    wal: Bytes,
    l2: Store,
    backend: Store,
    dirty: Store,
    inflight: Store,
    l1: Store,
    fills: map<nat, Fill>,
    diskUsed: nat,
    diskMax: nat,
    mounted: bool,
    sound: bool,
    truth: Store,
    live: set<nat>)

  datatype Event =
    | Append(id: nat, data: Bytes, reached: Bytes)
    | FillL1(id: nat, data: Bytes)
    | Evict(ids: set<nat>)
    | Buffer(id: nat, data: Bytes)
    | Requeue(id: nat, data: Bytes)
    | Mounted
    | Drain
    | Put(id: nat)
    | Settle(id: nat)
    | Retry(id: nat)
    | OpenFill(ticket: nat, id: nat, data: Bytes)
    | FillL2(ticket: nat)
    | DropFill(ticket: nat)
    | ClearWal
    | Kill(id: nat)
    | DropDirty(id: nat)
    | DropL2(id: nat)
    | DropBackend(id: nat)
    | Crash(torn: Bytes)

  predicate Logged(c: CacheState, id: nat, data: Bytes) {
    Record(id, data) in ParseAll(c.wal)
  }

  predicate Written(c: CacheState, id: nat, data: Bytes) {
    id in c.truth && c.truth[id] == data
  }

  /** When the code may take the step. */
  ghost predicate Enabled(c: CacheState, e: Event) {
    match e
    case Append(id, data, reached) =>
      id !in c.truth && Fits(Record(id, data)) && reached <= Encode(Record(id, data))
    case FillL1(id, data) => Written(c, id, data)
    case Evict(_) => true
    case Buffer(id, data) => Written(c, id, data) && (c.sound ==> Logged(c, id, data))
    case Requeue(id, data) => Logged(c, id, data) && Written(c, id, data)
    case Mounted => DurablyCovered(c) && forall r | r in ParseAll(c.wal) :: r.id in c.dirty
    case Drain => c.inflight == map[]
    case Put(id) => id in c.inflight
    case Settle(id) => id in c.inflight && id in c.backend
    case Retry(id) => id in c.inflight
    case OpenFill(k, id, data) => k !in c.fills && Written(c, id, data) && c.diskUsed + |data| <= c.diskMax
    case FillL2(k) => k in c.fills
    case DropFill(k) => k in c.fills
    case ClearWal => c.mounted && c.dirty == map[] && c.inflight == map[]
    case Kill(_) => true
    case DropDirty(id) => id !in c.live
    case DropL2(_) => true
    case DropBackend(id) => id !in c.live
    case Crash(torn) => torn == [] || exists r: Record :: Fits(r) && torn < Encode(r)
  }

  function Apply(c: CacheState, e: Event): CacheState {
    match e
    case Append(id, data, reached) =>
      c.(wal := c.wal + reached, sound := c.sound && Aligned(c.wal) && reached == Encode(Record(id, data)),
         truth := c.truth[id := data])
    case FillL1(id, data) => c.(l1 := c.l1[id := data])
    case Evict(ids) => c.(l1 := c.l1 - ids)
    case Buffer(id, data) => c.(dirty := c.dirty[id := data], live := c.live + {id})
    case Requeue(id, data) => c.(dirty := c.dirty[id := data])
    case Mounted => c.(mounted := true)
    case Drain => c.(inflight := c.dirty, dirty := map[])
    case Put(id) => if id in c.inflight then c.(backend := c.backend[id := c.inflight[id]]) else c
    case Settle(id) => c.(inflight := c.inflight - {id})
    case Retry(id) =>
      if id in c.inflight then
        c.(dirty := c.dirty[id := c.inflight[id]], inflight := c.inflight - {id})
      else
        c
    case OpenFill(k, id, data) => c.(fills := c.fills[k := Fill(id, data)])
    case FillL2(k) =>
      if k in c.fills then
        c.(l2 := c.l2[c.fills[k].id := c.fills[k].data], diskUsed := c.diskUsed + |c.fills[k].data|,
           fills := c.fills - {k})
      else
        c
    case DropFill(k) => c.(fills := c.fills - {k})
    case ClearWal => c.(wal := [], sound := true)
    case Kill(id) => c.(live := c.live - {id})
    case DropDirty(id) => c.(dirty := c.dirty - {id})
    case DropL2(id) =>
      if id in c.l2 then
        c.(l2 := c.l2 - {id}, diskUsed := c.diskUsed - Min(|c.l2[id]|, c.diskUsed))
      else
        c
    case DropBackend(id) => c.(backend := c.backend - {id})
    case Crash(torn) =>
      c.(wal := c.wal + torn, sound := c.sound && (torn == [] || Aligned(c.wal)),
         dirty := map[], inflight := map[], l1 := map[], fills := map[], diskUsed := 0, mounted := false)
  }

  /** An append that reaches the log whole. */
  function Whole(id: nat, data: Bytes): Event { Append(id, data, Encode(Record(id, data))) }

  ghost predicate Legal(c: CacheState, es: seq<Event>) {
    es == [] ||
    (Legal(c, es[..|es| - 1]) && Enabled(Run(c, es[..|es| - 1]), es[|es| - 1]))
  }

  function Run(c: CacheState, es: seq<Event>): CacheState {
    if es == [] then c else Apply(Run(c, es[..|es| - 1]), es[|es| - 1])
  }

  lemma Extend(c: CacheState, es: seq<Event>, e: Event)
    requires Legal(c, es) && Enabled(Run(c, es), e)
    ensures Legal(c, es + [e]) && Run(c, es + [e]) == Apply(Run(c, es), e)
  {
    assert (es + [e])[..|es|] == es;
  }

  lemma {:induction false} Concat(c: CacheState, a: seq<Event>, b: seq<Event>)
    requires Legal(c, a) && Legal(Run(c, a), b)
    ensures Legal(c, a + b) && Run(c, a + b) == Run(Run(c, a), b)
    decreases |b|
  {
    hide Enabled, Apply;
    if b == [] {
      assert a + b == a;
    } else {
      var b' := b[..|b| - 1];
      Concat(c, a, b');
      Extend(c, a + b', b[|b| - 1]);
      assert a + b == (a + b') + [b[|b| - 1]];
    }
  }

  // ---- what every event keeps ----

  ghost predicate Agrees(m: Store, truth: Store) {
    forall id | id in m :: id in truth && m[id] == truth[id]
  }

  ghost predicate FillsAgree(fills: map<nat, Fill>, truth: Store) {
    forall k | k in fills :: fills[k].id in truth && truth[fills[k].id] == fills[k].data
  }

  /** No tier holds other bytes than those the id was written with. */
  ghost predicate AllAgree(c: CacheState) {
    && Agrees(c.dirty, c.truth)
    && Agrees(c.inflight, c.truth)
    && Agrees(c.l1, c.truth)
    && Agrees(c.l2, c.truth)
    && Agrees(c.backend, c.truth)
    && FillsAgree(c.fills, c.truth)
    && (c.sound ==> LogAgrees(ParseAll(c.wal), c.truth))
    && c.live <= c.truth.Keys
  }

  ghost predicate LogAgrees(rs: seq<Record>, truth: Store) {
    forall r | r in rs :: r.id in truth && truth[r.id] == r.data
  }

  /** What the backend lacks, the log has. */
  ghost predicate DurablyCovered(c: CacheState) {
    forall id | id in c.live :: id in c.truth && (id in c.backend || Logged(c, id, c.truth[id]))
  }

  /** What the backend lacks, a flush will still write. */
  ghost predicate Pending(c: CacheState) {
    forall id | id in c.live :: id in c.backend || id in c.dirty || id in c.inflight
  }

  /** What replay needs of a log: no misread record, and every slice the backend lacks. */
  ghost predicate Recoverable(c: CacheState) {
    LogAgrees(ParseAll(c.wal), c.truth) && DurablyCovered(c)
  }

  lemma SoundIsRecoverable(c: CacheState)
    requires Inv(c) && c.sound
    ensures Recoverable(c)
  {
  }

  ghost predicate Inv(c: CacheState) {
    AllAgree(c) && (c.sound ==> DurablyCovered(c)) && (c.mounted ==> Pending(c))
  }

  /** What an event does to the records of the log, as long as it keeps the log sound. */
  lemma LogAfter(c: CacheState, e: Event)
    requires Enabled(c, e) && Apply(c, e).sound
    ensures e.Append? ==> ParseAll(Apply(c, e).wal) == ParseAll(c.wal) + [Record(e.id, e.data)]
    ensures e.ClearWal? ==> ParseAll(Apply(c, e).wal) == []
    ensures !e.Append? && !e.ClearWal? ==> ParseAll(Apply(c, e).wal) == ParseAll(c.wal)
    ensures !e.ClearWal? ==> c.sound
  {
    if e.Append? {
      AppendParses(c.wal, Record(e.id, e.data));
    } else if e.Crash? {
      if e.torn == [] {
        assert c.wal + e.torn == c.wal;
      } else {
        var r: Record :| Fits(r) && e.torn < Encode(r);
        TornAppend(c.wal, r, e.torn);
      }
    }
  }

  lemma MemoryAgrees(c: CacheState, e: Event)
    requires AllAgree(c) && Enabled(c, e)
    ensures var c' := Apply(c, e);
            Agrees(c'.dirty, c'.truth) && Agrees(c'.inflight, c'.truth) && Agrees(c'.l1, c'.truth)
  {
    hide ParseAll, Aligned, Encode, Fits, FillsAgree, LogAgrees;
  }

  lemma DisksAgree(c: CacheState, e: Event)
    requires AllAgree(c) && Enabled(c, e)
    ensures var c' := Apply(c, e);
            Agrees(c'.l2, c'.truth) && Agrees(c'.backend, c'.truth) && FillsAgree(c'.fills, c'.truth)
  {
    hide ParseAll, Aligned, Encode, Fits, LogAgrees;
  }

  lemma KnownAfter(c: CacheState, e: Event)
    requires c.live <= c.truth.Keys && Enabled(c, e)
    ensures Apply(c, e).live <= Apply(c, e).truth.Keys
  {
    hide ParseAll, Aligned, Encode, Fits;
  }

  lemma EventKeepsAgreement(c: CacheState, e: Event)
    requires AllAgree(c) && Enabled(c, e)
    ensures AllAgree(Apply(c, e))
  {
    MemoryAgrees(c, e);
    DisksAgree(c, e);
    KnownAfter(c, e);
    if Apply(c, e).sound {
      LogAfter(c, e);
      LogStillAgrees(c, e, ParseAll(c.wal), ParseAll(Apply(c, e).wal));
    }
  }

  lemma LogStillAgrees(c: CacheState, e: Event, before: seq<Record>, after: seq<Record>)
    requires Enabled(c, e) && (e.ClearWal? || LogAgrees(before, c.truth))
    requires after == if e.Append? then before + [Record(e.id, e.data)] else if e.ClearWal? then [] else before
    ensures LogAgrees(after, Apply(c, e).truth)
  {
    hide Aligned, ParseAll, Encode, Fits;
  }

  /** Covered by these records and this backend. */
  ghost predicate CoveredBy(live: set<nat>, truth: Store, backend: Store, rs: seq<Record>) {
    forall id | id in live :: id in truth && (id in backend || Record(id, truth[id]) in rs)
  }

  lemma ClearKeepsCovered(c: CacheState)
    requires c.live <= c.truth.Keys && Pending(c) && c.dirty == map[] && c.inflight == map[]
    ensures CoveredBy(c.live, c.truth, c.backend, [])
  {
  }

  lemma WriteKeepsCovered(c: CacheState, e: Event, rs: seq<Record>)
    requires CoveredBy(c.live, c.truth, c.backend, rs)
    requires e.Append? ==> e.id !in c.truth
    requires e.Buffer? ==> Written(c, e.id, e.data) && Record(e.id, e.data) in rs
    requires e.Append? || e.Buffer?
    ensures var c' := Apply(c, e);
            CoveredBy(c'.live, c'.truth, c'.backend, if e.Append? then rs + [Record(e.id, e.data)] else rs)
  {
    hide Aligned, Encode;
    if e.Append? {
      assert forall r | r in rs :: r in rs + [Record(e.id, e.data)];
    }
  }

  lemma OthersKeepCovered(c: CacheState, e: Event, rs: seq<Record>)
    requires CoveredBy(c.live, c.truth, c.backend, rs)
    requires !e.Append? && !e.Buffer? && (e.DropBackend? ==> e.id !in c.live)
    ensures var c' := Apply(c, e); CoveredBy(c'.live, c'.truth, c'.backend, rs)
  {
    hide Aligned, Encode;
  }

  lemma EventKeepsCovered(c: CacheState, e: Event)
    requires Inv(c) && Enabled(c, e) && Apply(c, e).sound
    ensures DurablyCovered(Apply(c, e))
  {
    LogAfter(c, e);
    CoveredIs(c);
    CoveredIs(Apply(c, e));
    var rs := ParseAll(c.wal);
    if e.ClearWal? {
      assert c.live <= c.truth.Keys;
      hide AllAgree, CoveredBy, ParseAll, DurablyCovered;
      ClearKeepsCovered(c);
    } else {
      hide AllAgree, CoveredBy, ParseAll, Pending, DurablyCovered, Encode, Fits, Aligned;
      if e.Append? || e.Buffer? {
        WriteKeepsCovered(c, e, rs);
      } else {
        OthersKeepCovered(c, e, rs);
      }
    }
  }

  lemma CoveredIs(c: CacheState)
    ensures DurablyCovered(c) <==> CoveredBy(c.live, c.truth, c.backend, ParseAll(c.wal))
  {
    hide ParseAll;
  }

  lemma EventKeepsPending(c: CacheState, e: Event)
    requires Inv(c) && Enabled(c, e)
    requires Apply(c, e).mounted
    ensures Pending(Apply(c, e))
  {
    hide Aligned, AllAgree, ParseAll, Encode, Fits;
    var c' := Apply(c, e);
    forall id | id in c'.live ensures id in c'.backend || id in c'.dirty || id in c'.inflight {
      if e.Mounted? {
        assert id in c.backend || Logged(c, id, c.truth[id]);
      } else if id in c.live {
        assert id in c.backend || id in c.dirty || id in c.inflight;
      }
    }
  }

  lemma EventKeepsInv(c: CacheState, e: Event)
    requires Inv(c) && Enabled(c, e)
    ensures Inv(Apply(c, e))
  {
    EventKeepsAgreement(c, e);
    if Apply(c, e).sound {
      EventKeepsCovered(c, e);
    }
    if Apply(c, e).mounted {
      EventKeepsPending(c, e);
    }
  }

  lemma {:induction false} RunKeepsInv(c: CacheState, es: seq<Event>)
    requires Inv(c) && Legal(c, es)
    ensures Inv(Run(c, es))
    decreases |es|
  {
    hide Enabled, Apply, Inv;
    if es == [] {
    } else {
      RunKeepsInv(c, es[..|es| - 1]);
      EventKeepsInv(Run(c, es[..|es| - 1]), es[|es| - 1]);
    }
  }

  // ---- reading ----

  /** Where `read_slice` finds the bytes when the backend answers: dirty, L1, L2, backend. */
  function Lookup(c: CacheState, id: nat): Option<Bytes> {
    if id in c.dirty then Some(c.dirty[id])
    else if id in c.l1 then Some(c.l1[id])
    else if id in c.l2 then Some(c.l2[id])
    else if id in c.backend then Some(c.backend[id])
    else None
  }

  /** A tier of the cache itself has the id, so that a look-up need not ask the backend. */
  predicate Held(c: CacheState, id: nat) { id in c.dirty || id in c.l1 || id in c.l2 }

  /** Between operations a live id reads as the bytes it was written with. */
  lemma LookupIsTruth(c: CacheState, id: nat)
    requires Inv(c) && c.mounted && c.inflight == map[] && id in c.live
    ensures id in c.truth && Lookup(c, id) == Some(c.truth[id])
  {
  }

  /** A live id is missed exactly while a flush has it in hand, not yet in the backend, and every cached
      copy is gone. */
  lemma LookupMissesIff(c: CacheState, id: nat)
    requires Inv(c) && c.mounted && id in c.live
    ensures Lookup(c, id) == None <==>
            id in c.inflight && id !in c.dirty && id !in c.l1 && id !in c.l2 && id !in c.backend
  {
  }

  /** Which happens: a write, an eviction, and the drain of a flush. */
  lemma FlushHidesSlice(c: CacheState, id: nat, data: Bytes)
    requires Inv(c) && c.mounted && c.inflight == map[] && id !in c.l2 && Enabled(c, Whole(id, data))
    ensures var es := [Whole(id, data), Buffer(id, data), Evict({id}), Drain];
            Legal(c, es) && Inv(Run(c, es)) && id in Run(c, es).live && Lookup(Run(c, es), id) == None
  {
    var c1 := Apply(c, Whole(id, data));
    var c2 := Apply(c1, Buffer(id, data));
    var c3 := Apply(c2, Evict({id}));
    WriteKeepsInv(c, id, data);
    WriteIsLogged(c, id, data);
    hide Aligned, ParseAll, Encode, Fits, DurablyCovered, Inv, Logged;
    EventKeepsInv(c2, Evict({id}));
    EventKeepsInv(c3, Drain);
    assert Lookup(Apply(c3, Drain), id) == None;
    hide Apply, Lookup;
    FourEvents(c, Whole(id, data), Buffer(id, data), Evict({id}), Drain);
  }

  lemma WriteIsLogged(c: CacheState, id: nat, data: Bytes)
    requires Enabled(c, Whole(id, data))
    ensures Enabled(Apply(c, Whole(id, data)), Buffer(id, data))
  {
    var c1 := Apply(c, Whole(id, data));
    if c1.sound {
      LogAfter(c, Whole(id, data));
    }
    hide Aligned, ParseAll, Encode, Fits;
  }

  // ---- what a crash leaves ----

  /** Right behind a crash only L2 and the backend answer: what was in the dirty set or L1 alone is missed. */
  lemma CrashMissesIff(c: CacheState, torn: Bytes, id: nat)
    ensures var c' := Apply(c, Crash(torn));
            && (Lookup(c', id) == None <==> id !in c.l2 && id !in c.backend)
            && (id in c.l2 ==> Lookup(c', id) == Some(c.l2[id]))
            && (id !in c.l2 && id in c.backend ==> Lookup(c', id) == Some(c.backend[id]))
  {
  }

  /** The same on disk. */
  predicate SameDisks(c: CacheState, d: CacheState) {
    && c.wal == d.wal && c.l2 == d.l2 && c.backend == d.backend && c.diskMax == d.diskMax
    && c.sound == d.sound && c.truth == d.truth && c.live == d.live
  }

  /** What follows a crash depends on the disks alone: two processes that leave the same there, whatever they
      had in memory, have the same future. */
  lemma {:induction false} CrashForgets(c: CacheState, d: CacheState, torn: Bytes, es: seq<Event>)
    requires SameDisks(c, d)
    ensures Legal(c, [Crash(torn)] + es) <==> Legal(d, [Crash(torn)] + es)
    ensures Run(c, [Crash(torn)] + es) == Run(d, [Crash(torn)] + es)
    decreases |es|
  {
    var run := [Crash(torn)] + es;
    if es == [] {
      assert run[..0] == [] && Run(c, run[..0]) == c && Run(d, run[..0]) == d;
      assert Legal(c, run[..0]) && Legal(d, run[..0]);
      assert Apply(c, Crash(torn)) == Apply(d, Crash(torn));
    } else {
      CrashForgets(c, d, torn, es[..|es| - 1]);
      assert run[..|run| - 1] == [Crash(torn)] + es[..|es| - 1];
    }
  }

  /** A write that was acknowledged and not flushed: behind the crash it is gone, the mount is not complete
      without replay, and replay brings it back. */
  lemma CrashNeedsReplay(c: CacheState, id: nat, data: Bytes, torn: Bytes)
    requires Inv(c) && c.sound && Aligned(c.wal) && id !in c.l2 && Enabled(c, Whole(id, data))
    requires Enabled(c, Crash(torn))
    ensures var c3 := Apply(Apply(Apply(c, Whole(id, data)), Buffer(id, data)), Crash(torn));
            && Legal(c, [Whole(id, data), Buffer(id, data), Crash(torn), Requeue(id, data)])
            && id in c3.live && Lookup(c3, id) == None && !Enabled(c3, Mounted)
            && Lookup(Apply(c3, Requeue(id, data)), id) == Some(data)
  {
    var c1 := Apply(c, Whole(id, data));
    var c2 := Apply(c1, Buffer(id, data));
    var c3 := Apply(c2, Crash(torn));
    WriteKeepsInv(c, id, data);
    WriteIsLogged(c, id, data);
    AppendParses(c.wal, Record(id, data));
    LogAfter(c2, Crash(torn));
    hide Aligned, ParseAll, Encode, Fits, DurablyCovered, Inv;
    assert c3 == c2.(wal := c3.wal, sound := c3.sound, dirty := map[], inflight := map[], l1 := map[], fills := map[],
                     diskUsed := 0, mounted := false);
    LoggedOnly(c3, id, data);
    hide Apply, Lookup, Logged;
    FourEvents(c, Whole(id, data), Buffer(id, data), Crash(torn), Requeue(id, data));
  }

  lemma LoggedOnly(c: CacheState, id: nat, data: Bytes)
    requires Logged(c, id, data) && Written(c, id, data)
    requires id !in c.dirty && id !in c.l1 && id !in c.l2 && id !in c.backend
    ensures Lookup(c, id) == None && !Enabled(c, Mounted) && Enabled(c, Requeue(id, data))
    ensures Lookup(Apply(c, Requeue(id, data)), id) == Some(data)
  {
    hide ParseAll, DurablyCovered, Encode, Aligned;
    assert Record(id, data).id == id;
  }

  /** That every slice of a read is held does not mean that it is found: reading one from L2 puts it into L1,
      which may drop another that only L1 held before its turn comes. */
  lemma PromotionDrops(c: CacheState, first: nat, second: nat)
    requires Inv(c) && first != second && first in c.l2 && !(first in c.dirty || first in c.l1)
    requires second in c.l1 && second !in c.dirty && second !in c.l2 && second !in c.backend
    ensures var es := [FillL1(first, c.l2[first]), Evict({second})];
            && Held(c, first) && Held(c, second) && Legal(c, es) && AllQuiet(es)
            && !Held(Run(c, es), second) && Lookup(Run(c, es), second) == None
  {
    var e1, e2 := FillL1(first, c.l2[first]), Evict({second});
    Extend(c, [], e1);
    assert [] + [e1] == [e1];
    Extend(c, [e1], e2);
    assert [e1] + [e2] == [e1, e2];
  }

  /** Events that answer reads, move bytes between tiers or restart: nothing is written or deleted. */
  predicate Quiet(e: Event) {
    !e.Append? && !e.Buffer? && !e.Kill? && !e.DropDirty? && !e.DropBackend?
  }

  predicate AllQuiet(es: seq<Event>) {
    forall e | e in es :: Quiet(e)
  }

  lemma QuietEvent(c: CacheState, e: Event)
    requires Quiet(e)
    ensures var c' := Apply(c, e); c'.truth == c.truth && c'.live == c.live && c'.diskMax == c.diskMax
  {
  }

  /** Quiet events never change what ids exist or what they hold. */
  lemma {:induction false} QuietKeepsContents(c: CacheState, es: seq<Event>)
    requires AllQuiet(es)
    ensures Run(c, es).truth == c.truth && Run(c, es).live == c.live && Run(c, es).diskMax == c.diskMax
    decreases |es|
  {
    if es == [] {
    } else {
      assert forall e | e in es[..|es| - 1] :: e in es;
      QuietKeepsContents(c, es[..|es| - 1]);
      QuietEvent(Run(c, es[..|es| - 1]), es[|es| - 1]);
    }
  }

  lemma TruthOnlyGrows(c: CacheState, e: Event)
    requires Enabled(c, e)
    ensures forall id | id in c.truth :: id in Apply(c, e).truth && Apply(c, e).truth[id] == c.truth[id]
  {
    hide Logged, Aligned;
  }

  lemma {:induction false} TruthIsForever(c: CacheState, es: seq<Event>)
    requires Legal(c, es)
    ensures forall id | id in c.truth :: id in Run(c, es).truth && Run(c, es).truth[id] == c.truth[id]
    decreases |es|
  {
    hide Enabled, Apply;
    if es == [] {
    } else {
      TruthIsForever(c, es[..|es| - 1]);
      TruthOnlyGrows(Run(c, es[..|es| - 1]), es[|es| - 1]);
    }
  }

  /** The tiers refine a write-once map. After any run, the write of an id, and any run behind it
      (flushes that fail in part, evictions, L2 skips, deletes, crashes, replays), a lookup of the id
      yields the bytes written or nothing; and it yields them if the id is live and nothing is in flight. */
  lemma RefinesMap(c: CacheState, before: seq<Event>, id: nat, data: Bytes, reached: Bytes, after: seq<Event>)
    requires Inv(c) && Legal(c, before) && Enabled(Run(c, before), Append(id, data, reached))
    requires Legal(Apply(Run(c, before), Append(id, data, reached)), after)
    ensures var t := Run(Apply(Run(c, before), Append(id, data, reached)), after);
            && Lookup(t, id) in {None, Some(data)}
            && (t.mounted && t.inflight == map[] && id in t.live ==> Lookup(t, id) == Some(data))
  {
    var s := Run(c, before);
    var s1 := Apply(s, Append(id, data, reached));
    RunKeepsInv(c, before);
    EventKeepsInv(s, Append(id, data, reached));
    RunKeepsInv(s1, after);
    TruthIsForever(s1, after);
    WrittenLookup(Run(s1, after), id, data);
  }

  lemma WrittenLookup(t: CacheState, id: nat, data: Bytes)
    requires Inv(t) && Written(t, id, data)
    ensures Lookup(t, id) in {None, Some(data)}
    ensures t.mounted && t.inflight == map[] && id in t.live ==> Lookup(t, id) == Some(data)
  {
  }

  // ---- why flushes must not overlap writes or each other ----

  /** Clearing the log, whenever it happens, is harmless exactly when each live slice that still waits
      for a flush, or is in one, has reached the backend. */
  lemma ClearIff(c: CacheState)
    requires Inv(c) && c.mounted
    ensures DurablyCovered(Apply(c, ClearWal)) <==>
            forall id | id in c.live && (id in c.dirty || id in c.inflight) :: id in c.backend
  {
    assert c.live <= c.truth.Keys;
    hide Aligned, AllAgree;
    var c' := Apply(c, ClearWal);
    assert ParseAll(c'.wal) == [];
    if DurablyCovered(c') {
      forall id | id in c.live && (id in c.dirty || id in c.inflight) ensures id in c.backend {
        assert id in c'.live;
      }
    }
  }

  /** ... and between the log record and the dirty entry of a write exactly when, besides, the slice of
      the write is in the backend, where nobody has put it yet. */
  lemma ClearInsideWriteIff(c: CacheState, id: nat, data: Bytes)
    requires Inv(c) && c.mounted && Written(c, id, data)
    ensures DurablyCovered(Apply(Apply(c, ClearWal), Buffer(id, data))) <==>
            DurablyCovered(Apply(c, ClearWal)) && id in c.backend
  {
    hide Aligned, AllAgree;
    var c1 := Apply(c, ClearWal);
    var c2 := Apply(c1, Buffer(id, data));
    assert ParseAll(c1.wal) == [] && ParseAll(c2.wal) == [];
    if DurablyCovered(c2) {
      assert id in c2.live;
      forall k | k in c1.live ensures k in c1.truth && k in c1.backend {
        assert k in c2.live;
      }
    }
  }

  /** A flush that drained earlier clears the log inside a write. */
  lemma ClearInsideWriteUncovers(c: CacheState, id: nat, data: Bytes)
    requires Inv(c) && c.mounted && Enabled(c, Whole(id, data))
    ensures var c1 := Apply(c, Whole(id, data));
            !DurablyCovered(Apply(Apply(c1, ClearWal), Buffer(id, data)))
  {
    EventKeepsInv(c, Whole(id, data));
    assert id !in c.backend;
    ClearInsideWriteIff(Apply(c, Whole(id, data)), id, data);
  }

  /** A flush drains, a whole write goes by, the flush clears the log: `flush_dirty` does not look again. */
  lemma ClearBehindWriteUncovers(c: CacheState, id: nat, data: Bytes)
    requires Inv(c) && c.mounted && Enabled(c, Whole(id, data))
    ensures var c2 := Apply(Apply(c, Whole(id, data)), Buffer(id, data));
            Inv(c2) && !DurablyCovered(Apply(c2, ClearWal))
  {
    WriteKeepsInv(c, id, data);
    ClearIff(Apply(Apply(c, Whole(id, data)), Buffer(id, data)));
  }

  /** A second flush finds nothing dirty and clears the log while the first is still putting slices. */
  lemma ClearBesideFlushUncovers(c: CacheState, id: nat, data: Bytes)
    requires Inv(c) && c.mounted && c.inflight == map[] && Enabled(c, Whole(id, data))
    ensures var c3 := Apply(Apply(Apply(c, Whole(id, data)), Buffer(id, data)), Drain);
            Inv(c3) && c3.dirty == map[] && !DurablyCovered(Apply(c3, ClearWal))
  {
    WriteKeepsInv(c, id, data);
    var c2 := Apply(Apply(c, Whole(id, data)), Buffer(id, data));
    EventKeepsInv(c2, Drain);
    ClearIff(Apply(c2, Drain));
  }

  lemma WriteKeepsInv(c: CacheState, id: nat, data: Bytes)
    requires Inv(c) && Enabled(c, Whole(id, data))
    ensures Inv(Apply(Apply(c, Whole(id, data)), Buffer(id, data)))
    ensures id !in c.backend
  {
    var c1 := Apply(c, Whole(id, data));
    EventKeepsInv(c, Whole(id, data));
    if c1.sound {
      LogAfter(c, Whole(id, data));
    }
    EventKeepsInv(c1, Buffer(id, data));
  }

  /** A record behind a torn tail covers nothing: after any write of fewer than 2^24 bytes behind one
      stray byte, only memory holds the slice. */
  lemma TornTailUncovers(c: CacheState, stray: byte, id: nat, data: Bytes)
    requires Inv(c) && c.mounted && c.wal == [stray]
    requires id !in c.truth && id < 0x100_0000_0000_0000 && 0 < |data| < 0x100_0000
    ensures Enabled(c, Whole(id, data))
    ensures var c2 := Apply(Apply(c, Whole(id, data)), Buffer(id, data));
            Enabled(Apply(c, Whole(id, data)), Buffer(id, data)) && Inv(c2) && !c2.sound && !DurablyCovered(c2)
  {
    assert !HasRecord(c.wal);
    LostBehindByte(stray, Record(id, data));
    WriteKeepsInv(c, id, data);
    hide ParseAll, Encode;
    var c2 := Apply(Apply(c, Whole(id, data)), Buffer(id, data));
    assert id in c2.live && id !in c2.backend;
    assert !Logged(c2, id, data);
  }

  /** A log that cannot be read at mount stays unreplayed; the next flush clears it, harmlessly exactly when
      the backend had every live slice before. */
  lemma UnreadLogIff(c: CacheState)
    requires Inv(c)
    ensures DurablyCovered(Apply(c, ClearWal)) <==> forall id | id in c.live :: id in c.backend
  {
    assert c.live <= c.truth.Keys;
    hide AllAgree;
    var c' := Apply(c, ClearWal);
    assert ParseAll(c'.wal) == [];
    if DurablyCovered(c') {
      forall id | id in c.live ensures id in c.backend {
        assert id in c'.live;
      }
    }
  }

  // ---- L2 accounting ----

  ghost function TotalLength(m: Store): nat {
    if m == map[] then 0 else
      var id :| id in m;
      |m[id]| + TotalLength(m - {id})
  }

  lemma {:induction false} TotalWithout(m: Store, id: nat)
    requires id in m
    ensures TotalLength(m) == |m[id]| + TotalLength(m - {id})
    decreases |m|
  {
    var first :| first in m && TotalLength(m) == |m[first]| + TotalLength(m - {first});
    if first == id {
    } else {
      assert m - {first} - {id} == m - {id} - {first};
      TotalWithout(m - {first}, id);
      TotalWithout(m - {id}, first);
    }
  }

  lemma TotalWith(m: Store, id: nat, data: Bytes)
    requires id !in m
    ensures TotalLength(m[id := data]) == |data| + TotalLength(m)
  {
    TotalWithout(m[id := data], id);
    assert m[id := data] - {id} == m;
  }

  /** The id has no L2 file, or one of no bytes. */
  predicate NoFile(c: CacheState, id: nat) {
    id in c.l2 ==> c.l2[id] == []
  }

  /** `disk_used` is the sum of the L2 file lengths and within the bound; unflushed slices have no file. */
  ghost predicate Accounted(c: CacheState) {
    && c.diskUsed == TotalLength(c.l2) <= c.diskMax
    && (forall id | id in c.dirty || id in c.inflight :: NoFile(c, id))
  }

  /** The id has no L2 file and no flush will write one, or there are no bytes. */
  predicate FirstFor(c: CacheState, id: nat, data: Bytes) {
    id in c.l2 || id in c.dirty || id in c.inflight ==> NoFile(c, id) && data == []
  }

  /** The step writes no L2 file, or dirty entry, for an id that has a file, unless there are no bytes;
      and what a fill adds still fits when it is added, not only when it was checked. */
  predicate CountsRight(c: CacheState, e: Event) {
    match e
    case Buffer(id, _) => NoFile(c, id)
    case Requeue(id, _) => NoFile(c, id)
    case FillL2(k) =>
      k in c.fills ==> FirstFor(c, c.fills[k].id, c.fills[k].data) && c.diskUsed + |c.fills[k].data| <= c.diskMax
    case Crash(_) => forall id | id in c.l2 :: c.l2[id] == []
    case _ => true
  }

  lemma EventKeepsAccounted(c: CacheState, e: Event)
    requires Accounted(c) && Enabled(c, e) && CountsRight(c, e)
    ensures Accounted(Apply(c, e))
  {
    hide Aligned, ParseAll, TotalLength, Logged, Written, Encode, Fits, DurablyCovered;
    var c' := Apply(c, e);
    if e.FillL2? {
      var fill := c.fills[e.ticket];
      if fill.id in c.l2 {
        assert c'.l2 == c.l2;
      } else {
        TotalWith(c.l2, fill.id, fill.data);
      }
    } else if e.DropL2? && e.id in c.l2 {
      TotalWithout(c.l2, e.id);
    } else if e.Crash? {
      EmptyTotal(c.l2);
    }
    UnflushedHaveNoFile(c, e);
  }

  /** The accounting survives a step exactly when it writes no second file and nothing over the bound.
      Overlapping fills do both: the size is checked before the file is written and counted after. */
  lemma AccountedIff(c: CacheState, e: Event)
    requires Accounted(c) && AllAgree(c) && Enabled(c, e)
    ensures Accounted(Apply(c, e)) <==> CountsRight(c, e)
  {
    hide Aligned, ParseAll, TotalLength, Logged, Encode, Fits, DurablyCovered;
    if CountsRight(c, e) {
      EventKeepsAccounted(c, e);
    } else {
      match e
      case FillL2(k) => MiscountedFill(c, k);
      case Crash(torn) => RestartAccounting(c, torn);
      case Buffer(id, _) => assert id in Apply(c, e).dirty;
      case Requeue(id, _) => assert id in Apply(c, e).dirty;
    }
  }

  lemma MiscountedFill(c: CacheState, k: nat)
    requires Accounted(c) && AllAgree(c) && k in c.fills && !CountsRight(c, FillL2(k))
    ensures !Accounted(Apply(c, FillL2(k)))
  {
    hide Aligned, ParseAll, Logged, Encode, TotalLength;
    var id, data := c.fills[k].id, c.fills[k].data;
    if c.diskUsed + |data| <= c.diskMax {
      if id in c.l2 {
        assert c.l2[id] == data;
        assert c.l2[id := data] == c.l2;
      } else {
        assert id in c.dirty || id in c.inflight;
        assert id in Apply(c, FillL2(k)).l2;
      }
    }
  }

  /** Both halves of a fill. */
  function Filled(c: CacheState, k: nat, id: nat, data: Bytes): CacheState {
    Apply(Apply(c, OpenFill(k, id, data)), FillL2(k))
  }

  /** Two overlapping misses of one slice count its length twice. */
  lemma OverlappingMissesMiscount(c: CacheState, id: nat, data: Bytes)
    requires Accounted(c) && AllAgree(c) && Written(c, id, data) && data != []
    requires id !in c.l2 && id !in c.dirty && id !in c.inflight
    requires c.fills == map[] && c.diskUsed + |data| <= c.diskMax
    ensures Legal(c, [OpenFill(1, id, data), OpenFill(2, id, data), FillL2(1), FillL2(2)])
    ensures !Accounted(Run(c, [OpenFill(1, id, data), OpenFill(2, id, data), FillL2(1), FillL2(2)]))
  {
    hide Aligned, ParseAll, TotalLength, Logged, Encode, Fits, DurablyCovered, Legal, Run, Accounted;
    var c3 := BothOpen(c, id, data, id, data);
    AccountedIff(c3, FillL2(1));
    EventKeepsAgreement(c3, FillL2(1));
    AccountedIff(Apply(c3, FillL2(1)), FillL2(2));
    FourEvents(c, OpenFill(1, id, data), OpenFill(2, id, data), FillL2(1), FillL2(2));
  }

  /** Two fills, of different slices that each fit, are checked together and then land: the bound holds
      exactly when they fit together. */
  lemma TwoFillsIff(c: CacheState, a: nat, x: Bytes, b: nat, y: Bytes)
    requires Accounted(c) && AllAgree(c) && c.fills == map[] && a != b
    requires Written(c, a, x) && a !in c.l2 && a !in c.dirty && a !in c.inflight && c.diskUsed + |x| <= c.diskMax
    requires Written(c, b, y) && b !in c.l2 && b !in c.dirty && b !in c.inflight && c.diskUsed + |y| <= c.diskMax
    ensures Legal(c, [OpenFill(1, a, x), OpenFill(2, b, y), FillL2(1), FillL2(2)])
    ensures Accounted(Run(c, [OpenFill(1, a, x), OpenFill(2, b, y), FillL2(1), FillL2(2)]))
       <==> c.diskUsed + |x| + |y| <= c.diskMax
  {
    hide Aligned, ParseAll, TotalLength, Logged, Encode, Fits, DurablyCovered, Legal, Run, Accounted;
    var c3 := BothOpen(c, a, x, b, y);
    AccountedIff(c3, FillL2(1));
    EventKeepsAgreement(c3, FillL2(1));
    AccountedIff(Apply(c3, FillL2(1)), FillL2(2));
    FourEvents(c, OpenFill(1, a, x), OpenFill(2, b, y), FillL2(1), FillL2(2));
  }

  lemma BothOpen(c: CacheState, a: nat, x: Bytes, b: nat, y: Bytes) returns (c3: CacheState)
    requires Accounted(c) && AllAgree(c) && c.fills == map[]
    requires Written(c, a, x) && c.diskUsed + |x| <= c.diskMax
    requires Written(c, b, y) && c.diskUsed + |y| <= c.diskMax
    ensures c3 == c.(fills := map[1 := Fill(a, x), 2 := Fill(b, y)])
    ensures c3 == Apply(Apply(c, OpenFill(1, a, x)), OpenFill(2, b, y)) && Accounted(c3) && AllAgree(c3)
    ensures Enabled(c, OpenFill(1, a, x)) && Enabled(Apply(c, OpenFill(1, a, x)), OpenFill(2, b, y))
  {
    hide Aligned, ParseAll, TotalLength, Logged, Encode, Fits, DurablyCovered, AllAgree, Accounted;
    var c2 := Apply(c, OpenFill(1, a, x));
    EventKeepsAgreement(c, OpenFill(1, a, x));
    EventKeepsAccounted(c, OpenFill(1, a, x));
    EventKeepsAgreement(c2, OpenFill(2, b, y));
    EventKeepsAccounted(c2, OpenFill(2, b, y));
    c3 := Apply(c2, OpenFill(2, b, y));
  }

  lemma FourEvents(c: CacheState, e1: Event, e2: Event, e3: Event, e4: Event)
    requires var c1 := Apply(c, e1);
             var c2 := Apply(c1, e2);
             var c3 := Apply(c2, e3);
             Enabled(c, e1) && Enabled(c1, e2) && Enabled(c2, e3) && Enabled(c3, e4)
    ensures Legal(c, [e1, e2, e3, e4])
    ensures Run(c, [e1, e2, e3, e4]) == Apply(Apply(Apply(Apply(c, e1), e2), e3), e4)
  {
    hide Enabled, Apply;
    Extend(c, [], e1);
    assert [] + [e1] == [e1];
    Extend(c, [e1], e2);
    assert [e1] + [e2] == [e1, e2];
    Extend(c, [e1, e2], e3);
    assert [e1, e2] + [e3] == [e1, e2, e3];
    Extend(c, [e1, e2, e3], e4);
    assert [e1, e2, e3] + [e4] == [e1, e2, e3, e4];
  }

  ghost function PendingLength(fills: map<nat, Fill>): nat {
    if fills == map[] then 0 else
      var k :| k in fills;
      |fills[k].data| + PendingLength(fills - {k})
  }

  lemma {:induction false} PendingWithout(fills: map<nat, Fill>, k: nat)
    requires k in fills
    ensures PendingLength(fills) == |fills[k].data| + PendingLength(fills - {k})
    decreases |fills|
  {
    var first :| first in fills && PendingLength(fills) == |fills[first].data| + PendingLength(fills - {first});
    if first == k {
    } else {
      assert fills - {first} - {k} == fills - {k} - {first};
      PendingWithout(fills - {first}, k);
      PendingWithout(fills - {k}, first);
    }
  }

  /** All fills that have passed their check still fit, whichever lands when. */
  ghost predicate Reserved(c: CacheState) {
    c.diskUsed + PendingLength(c.fills) <= c.diskMax
  }

  /** What would have to be checked before a fill, instead of `disk_used + len` alone: with it, and only
      with it, everything that passed its check goes on fitting. */
  lemma ReservedIff(c: CacheState, e: Event)
    requires Reserved(c) && Enabled(c, e)
    ensures Reserved(Apply(c, e)) <==>
            (e.OpenFill? ==> c.diskUsed + PendingLength(c.fills) + |e.data| <= c.diskMax)
  {
    hide Aligned, ParseAll, PendingLength, Logged, Written, Encode, Fits, DurablyCovered;
    var c' := Apply(c, e);
    if e.OpenFill? {
      PendingWithout(c'.fills, e.ticket);
      assert c'.fills - {e.ticket} == c.fills;
    } else if e.FillL2? || e.DropFill? {
      PendingWithout(c.fills, e.ticket);
    } else if e.Crash? {
      NonePending();
    }
  }

  lemma NonePending()
    ensures PendingLength(map[]) == 0
  {
  }

  lemma ReservedFits(c: CacheState, k: nat)
    requires Reserved(c) && k in c.fills
    ensures c.diskUsed + |c.fills[k].data| <= c.diskMax
  {
    PendingWithout(c.fills, k);
  }

  lemma UnflushedHaveNoFile(c: CacheState, e: Event)
    requires Accounted(c) && Enabled(c, e) && CountsRight(c, e)
    ensures var c' := Apply(c, e);
            forall id | id in c'.dirty || id in c'.inflight :: NoFile(c', id)
  {
    if e.FillL2? || e.DropL2? {
      FilesMove(c, e);
    } else {
      SlicesMove(c, e);
    }
  }

  lemma FilesMove(c: CacheState, e: Event)
    requires Accounted(c) && CountsRight(c, e) && (e.FillL2? || e.DropL2?)
    ensures var c' := Apply(c, e);
            forall id | id in c'.dirty || id in c'.inflight :: NoFile(c', id)
  {
    hide TotalLength;
    var c' := Apply(c, e);
    assert c'.dirty == c.dirty && c'.inflight == c.inflight;
    forall id | id in c.dirty || id in c.inflight ensures NoFile(c', id) {
      assert NoFile(c, id);
      if e.FillL2? {
        FilledFile(c, e.ticket, id);
      }
    }
  }

  lemma FilledFile(c: CacheState, k: nat, id: nat)
    requires k in c.fills ==> FirstFor(c, c.fills[k].id, c.fills[k].data)
    requires NoFile(c, id) && (id in c.dirty || id in c.inflight)
    ensures NoFile(Apply(c, FillL2(k)), id)
  {
  }

  lemma SlicesMove(c: CacheState, e: Event)
    requires Accounted(c) && CountsRight(c, e) && !e.FillL2? && !e.DropL2?
    ensures var c' := Apply(c, e);
            forall id | id in c'.dirty || id in c'.inflight :: NoFile(c', id)
  {
    var c' := Apply(c, e);
    UnflushedFrom(c, e);
    forall id | id in c'.dirty || id in c'.inflight ensures NoFile(c', id) {
      hide Apply, TotalLength, FirstFor;
      if id in c.dirty || id in c.inflight {
        assert NoFile(c, id);
      }
    }
  }

  /** What waits for a flush waited before, or is what the step brought. */
  lemma UnflushedFrom(c: CacheState, e: Event)
    requires !e.FillL2? && !e.DropL2?
    ensures var c' := Apply(c, e);
            && c'.l2 == c.l2
            && forall id | id in c'.dirty || id in c'.inflight ::
                 id in c.dirty || id in c.inflight || ((e.Buffer? || e.Requeue?) && e.id == id)
  {
    hide Aligned, Encode;
  }

  /** The `min` in `disk_delete` never clamps while the accounting holds. */
  lemma NoClamp(c: CacheState, id: nat)
    requires Accounted(c) && id in c.l2
    ensures Min(|c.l2[id]|, c.diskUsed) == |c.l2[id]|
  {
    TotalWithout(c.l2, id);
  }

  /** A restart forgets the L2 files: the accounting survives exactly when they are all empty. */
  lemma RestartAccounting(c: CacheState, torn: Bytes)
    ensures Accounted(Apply(c, Crash(torn))) <==> forall id | id in c.l2 :: c.l2[id] == []
  {
    EmptyTotal(c.l2);
  }

  lemma {:induction false} EmptyTotal(m: Store)
    ensures TotalLength(m) == 0 <==> forall id | id in m :: m[id] == []
    decreases |m|
  {
    if m == map[] {
    } else {
      var id :| id in m && TotalLength(m) == |m[id]| + TotalLength(m - {id});
      EmptyTotal(m - {id});
      assert forall k | k in m && k != id :: k in m - {id} && (m - {id})[k] == m[k];
    }
  }
}
