/** Flat mode's write buffer: one open handle, racing writers and racing flushes, as atomic steps. */
module FlatBuffer {
  import opened Types

  /** `flush_generation` counts the writes accepted. */
  datatype OpenFile = OpenFile(buffer: Bytes, dirty: bool, generation: nat)

  datatype WriteReq = WriteReq(offset: nat, data: Bytes)

  const OPENED: OpenFile := OpenFile([], false, 0)

  // ---- what each critical section does to the handle ----

  function Resized(a: Bytes, n: nat): (r: Bytes)
    ensures |r| == Max(|a|, n)
  {
    if n <= |a| then a else a + seq(n - |a|, _ => 0)
  }

  /** The buffer grown to the end of the write, with the write's bytes over it. */
  function Patch(a: Bytes, w: WriteReq): (r: Bytes)
    ensures |r| == Max(|a|, w.offset + |w.data|)
  {
    var b := Resized(a, w.offset + |w.data|);
    b[..w.offset] + w.data + b[w.offset + |w.data|..]
  }

  /** Byte by byte: the write's bytes, else the old ones, else zeros. */
  lemma PatchBytes(a: Bytes, w: WriteReq, i: nat)
    requires i < Max(|a|, w.offset + |w.data|)
    ensures Patch(a, w)[i] ==
            if w.offset <= i < w.offset + |w.data| then w.data[i - w.offset] else if i < |a| then a[i] else 0
  {
  }

  predicate Pristine(f: OpenFile) { f.buffer == [] && !f.dirty }

  /** The re-check under the lock, then the backend's bytes if it had any. */
  function InstallFile(f: OpenFile, existing: Option<Bytes>): OpenFile {
    if Pristine(f) && existing.Some? then f.(buffer := existing.value) else f
  }

  function CommitFile(f: OpenFile, w: WriteReq): OpenFile {
    OpenFile(Patch(f.buffer, w), true, f.generation + 1)
  }

  function MarkFile(f: OpenFile, generation: nat): OpenFile {
    if f.generation == generation then f.(dirty := false) else f
  }

  // ---- the protocol ----

  /** `existing` is what the read outside the lock answered; a failed read answers nothing. */
  datatype Writer =
    | NeedsRead(w: WriteReq)
    | Fetched(w: WriteReq, existing: Option<Bytes>)
    | Ready(w: WriteReq)

  /** Which bytes a snapshot holds: the first `generation` writes over `seed`. */
  datatype Version = Version(seed: Bytes, generation: nat)

  /** A flush between its snapshot and its end. `stored` once its PUT has succeeded. */
  datatype Flight = Flight(data: Bytes, version: Version, stored: bool)

  /** `base` is the object's content at open, `seed` the bytes last installed from a read (none at first),
      `log` the writes accepted so far, in order. `last` is the snapshot that reached the object last,
      `newest` the highest generation that ever did. */
  datatype State = State(
    remote: Option<Bytes>,
    file: OpenFile,
    writers: map<nat, Writer>,
    flights: map<nat, Flight>,
    base: Bytes,
    seed: Bytes,
    log: seq<WriteReq>,
    last: Option<Version>,
    newest: nat)

  datatype Step =
    | Begin(id: nat, w: WriteReq)
    | Fetch(id: nat, existing: Option<Bytes>)
    | Install(id: nat)
    | Commit(id: nat)
    | Snapshot(flush: nat)
    | PutOk(flush: nat)
    | PutFails(flush: nat, lands: bool)
    | Mark(flush: nat)

  function Contents(remote: Option<Bytes>): Bytes { if remote.Some? then remote.value else [] }

  function Start(remote: Option<Bytes>): State {
    State(remote, OPENED, map[], map[], Contents(remote), [], [], None, 0)
  }

  /** The read of a first write goes through a cache and may fail: it may answer with any bytes. */
  predicate Can(s: State, e: Step) {
    match e
    case Begin(id, w) => id !in s.writers
    case Fetch(id, _) => id in s.writers && s.writers[id].NeedsRead?
    case Install(id) => id in s.writers && s.writers[id].Fetched?
    case Commit(id) => id in s.writers && s.writers[id].Ready?
    case Snapshot(k) => k !in s.flights && s.file.dirty
    case PutOk(k) => k in s.flights && !s.flights[k].stored
    case PutFails(k, _) => k in s.flights && !s.flights[k].stored
    case Mark(k) => k in s.flights && s.flights[k].stored
  }

  /** A snapshot reaches the object. */
  function Land(s: State, fl: Flight): State {
    s.(remote := Some(fl.data), last := Some(fl.version), newest := Max(s.newest, fl.version.generation))
  }

  function Next(s: State, e: Step): State
    requires Can(s, e)
  {
    match e
    case Begin(id, w) => s.(writers := s.writers[id := if Pristine(s.file) then NeedsRead(w) else Ready(w)])
    case Fetch(id, existing) => s.(writers := s.writers[id := Fetched(s.writers[id].w, existing)])
    case Install(id) =>
      var existing := s.writers[id].existing;
      s.(file := InstallFile(s.file, existing),
         seed := if Pristine(s.file) && existing.Some? then existing.value else s.seed,
         writers := s.writers[id := Ready(s.writers[id].w)])
    case Commit(id) =>
      s.(file := CommitFile(s.file, s.writers[id].w), log := s.log + [s.writers[id].w], writers := s.writers - {id})
    case Snapshot(k) =>
      s.(flights := s.flights[k := Flight(s.file.buffer, Version(s.seed, s.file.generation), false)])
    case PutOk(k) => Land(s, s.flights[k]).(flights := s.flights[k := s.flights[k].(stored := true)])
    case PutFails(k, lands) => (if lands then Land(s, s.flights[k]) else s).(flights := s.flights - {k})
    case Mark(k) =>
      s.(file := MarkFile(s.file, s.flights[k].version.generation), flights := s.flights - {k})
  }

  // ---- replaying writes ----

  /** All writes of the list applied in order. */
  function Replay(base: Bytes, log: seq<WriteReq>): Bytes {
    if log == [] then base else Patch(Replay(base, log[..|log| - 1]), log[|log| - 1])
  }

  lemma {:induction false} ReplayGrows(base: Bytes, log: seq<WriteReq>, j: nat)
    requires j <= |log|
    ensures |Replay(base, log[..j])| <= |Replay(base, log)|
    decreases |log|
  {
    if j == |log| {
      assert log[..j] == log;
    } else {
      ReplayGrows(base, log[..|log| - 1], j);
      assert log[..|log| - 1][..j] == log[..j];
    }
  }

  lemma {:induction false} ReplaySplit(base: Bytes, log: seq<WriteReq>, j: nat)
    requires j <= |log|
    ensures Replay(base, log) == Replay(Replay(base, log[..j]), log[j..])
    decreases |log|
  {
    hide Patch;
    if j == |log| {
      assert log[..j] == log;
    } else {
      var front := log[..|log| - 1];
      ReplaySplit(base, front, j);
      assert front[..j] == log[..j];
      assert log[j..][..|log[j..]| - 1] == front[j..];
    }
  }

  /** Writes that leave an empty file empty change no file. */
  lemma {:induction false} HollowLog(a: Bytes, log: seq<WriteReq>, b: Bytes)
    requires Replay(a, log) == []
    ensures a == [] && Replay(b, log) == b
    decreases |log|
  {
    if log == [] {
    } else {
      HollowLog(a, log[..|log| - 1], b);
    }
  }

  /** The byte at `i`, zero beyond the end. */
  function ByteAt(a: Bytes, i: nat): byte { if i < |a| then a[i] else 0 }

  predicate Covers(w: WriteReq, i: nat) { w.offset <= i < w.offset + |w.data| }

  predicate Touched(log: seq<WriteReq>, i: nat) { exists w | w in log :: Covers(w, i) }

  function LogEnd(log: seq<WriteReq>): nat {
    if log == [] then 0 else Max(LogEnd(log[..|log| - 1]), log[|log| - 1].offset + |log[|log| - 1].data|)
  }

  /** Two files that become the same length and agree wherever no write goes. */
  ghost predicate SameOutside(a: Bytes, b: Bytes, log: seq<WriteReq>) {
    && Max(|a|, LogEnd(log)) == Max(|b|, LogEnd(log))
    && forall i: nat | !Touched(log, i) :: ByteAt(a, i) == ByteAt(b, i)
  }

  lemma {:induction false} ReplayLength(a: Bytes, log: seq<WriteReq>)
    ensures |Replay(a, log)| == Max(|a|, LogEnd(log))
    decreases |log|
  {
    if log == [] {
    } else {
      ReplayLength(a, log[..|log| - 1]);
    }
  }

  lemma TouchedSnoc(log: seq<WriteReq>, i: nat)
    requires log != []
    ensures Touched(log, i) <==> Touched(log[..|log| - 1], i) || Covers(log[|log| - 1], i)
  {
    assert log[|log| - 1] in log;
  }

  lemma PatchAt(a: Bytes, w: WriteReq, i: nat)
    ensures ByteAt(Patch(a, w), i) == if Covers(w, i) then w.data[i - w.offset] else ByteAt(a, i)
  {
    if i < |Patch(a, w)| {
      PatchBytes(a, w, i);
    }
  }

  /** A byte some write covers does not depend on the file below, and any other byte only on it. */
  lemma {:induction false} ReplayAt(a: Bytes, b: Bytes, log: seq<WriteReq>, i: nat)
    ensures if Touched(log, i) then ByteAt(Replay(a, log), i) == ByteAt(Replay(b, log), i)
            else ByteAt(Replay(a, log), i) == ByteAt(a, i) && ByteAt(Replay(b, log), i) == ByteAt(b, i)
    decreases |log|
  {
    hide Patch, Covers, ByteAt;
    if log == [] {
    } else {
      var front, w := log[..|log| - 1], log[|log| - 1];
      TouchedSnoc(log, i);
      ReplayAt(a, b, front, i);
      PatchAt(Replay(a, front), w, i);
      PatchAt(Replay(b, front), w, i);
    }
  }

  lemma SameBytes(a: Bytes, b: Bytes)
    requires |a| == |b| && forall i: nat :: ByteAt(a, i) == ByteAt(b, i)
    ensures a == b
  {
    assert forall i | 0 <= i < |a| :: a[i] == ByteAt(a, i) == ByteAt(b, i) == b[i];
  }

  /** Writes hide every difference of the files below them exactly when they cover all of it. */
  lemma ReplayAgreesIff(a: Bytes, b: Bytes, log: seq<WriteReq>)
    ensures Replay(a, log) == Replay(b, log) <==> SameOutside(a, b, log)
  {
    hide Replay, Touched, ByteAt, LogEnd;
    ReplayLength(a, log);
    ReplayLength(b, log);
    forall i: nat
      ensures if Touched(log, i) then ByteAt(Replay(a, log), i) == ByteAt(Replay(b, log), i)
              else ByteAt(Replay(a, log), i) == ByteAt(a, i) && ByteAt(Replay(b, log), i) == ByteAt(b, i)
    {
      ReplayAt(a, b, log, i);
    }
    if SameOutside(a, b, log) {
      SameBytes(Replay(a, log), Replay(b, log));
    }
  }

  /** The byte that the last write covering `i` puts there. */
  function LastByte(log: seq<WriteReq>, i: nat): byte
    requires Touched(log, i)
    decreases |log|
  {
    var last := log[|log| - 1];
    TouchedSnoc(log, i);
    if Covers(last, i) then last.data[i - last.offset] else LastByte(log[..|log| - 1], i)
  }

  lemma {:induction false} ReplayTouched(a: Bytes, log: seq<WriteReq>, i: nat)
    requires Touched(log, i)
    ensures ByteAt(Replay(a, log), i) == LastByte(log, i)
    decreases |log|
  {
    hide Patch, ByteAt;
    var front, last := log[..|log| - 1], log[|log| - 1];
    TouchedSnoc(log, i);
    PatchAt(Replay(a, front), last, i);
    if Covers(last, i) {
    } else {
      ReplayTouched(a, front, i);
    }
  }

  /** Writes change nothing exactly when none ends behind the file and every byte they cover already has
      the value of the last of them. */
  lemma ReplayFixedIff(a: Bytes, log: seq<WriteReq>)
    ensures Replay(a, log) == a <==>
            LogEnd(log) <= |a| && forall i: nat | Touched(log, i) :: ByteAt(a, i) == LastByte(log, i)
  {
    hide Replay, Touched, LogEnd, LastByte;
    ReplayLength(a, log);
    forall i: nat | Touched(log, i) ensures ByteAt(Replay(a, log), i) == LastByte(log, i) {
      ReplayTouched(a, log, i);
    }
    if LogEnd(log) <= |a| && forall i: nat | Touched(log, i) :: ByteAt(a, i) == LastByte(log, i) {
      forall i: nat ensures ByteAt(Replay(a, log), i) == ByteAt(a, i) {
        ReplayAt(a, a, log, i);
      }
      SameBytes(Replay(a, log), a);
    }
  }

  // ---- what holds however reads answer and flushes overlap ----

  function VersionBytes(s: State, v: Version): Bytes
    requires v.generation <= |s.log|
  {
    Replay(v.seed, s.log[..v.generation])
  }

  ghost predicate HandleOk(s: State) {
    && s.file.generation == |s.log|
    && s.file.buffer == Replay(s.seed, s.log)
    && (s.log == [] ==> !s.file.dirty)
    && s.newest <= |s.log| && (!s.file.dirty ==> s.newest == |s.log|)
  }

  ghost predicate FlightsOk(s: State) {
    forall k | k in s.flights ::
      var fl := s.flights[k];
      && fl.version.generation <= |s.log| && fl.data == VersionBytes(s, fl.version)
      && (fl.stored ==> fl.version.generation <= s.newest)
  }

  ghost predicate ObjectOk(s: State) {
    match s.last
    case None => Contents(s.remote) == s.base && s.newest == 0
    case Some(v) => v.generation <= s.newest <= |s.log| && s.remote == Some(VersionBytes(s, v))
  }

  ghost predicate BufferInv(s: State) {
    HandleOk(s) && FlightsOk(s) && ObjectOk(s)
  }

  lemma StartInv(remote: Option<Bytes>)
    ensures BufferInv(Start(remote)) && FaithfulInv(Start(remote))
  {
  }

  lemma CommitKeepsInv(s: State, id: nat)
    requires BufferInv(s) && Can(s, Commit(id))
    ensures BufferInv(Next(s, Commit(id)))
  {
    hide Patch;
    var t := Next(s, Commit(id));
    assert t.log[..|s.log|] == s.log;
    forall g: nat | g <= |s.log| ensures t.log[..g] == s.log[..g] {
    }
    assert t.file.buffer == Replay(t.seed, t.log);
  }

  lemma InstallKeepsInv(s: State, id: nat)
    requires BufferInv(s) && Can(s, Install(id))
    ensures BufferInv(Next(s, Install(id)))
  {
    hide Replay;
    var existing := s.writers[id].existing;
    if Pristine(s.file) && existing.Some? {
      HollowLog(s.seed, s.log, existing.value);
    }
  }

  lemma OtherStepsKeepInv(s: State, e: Step)
    requires BufferInv(s) && Can(s, e) && !e.Commit? && !e.Install?
    ensures BufferInv(Next(s, e))
  {
    hide Patch, Replay;
    assert s.log[..|s.log|] == s.log;
  }

  /** Each critical section and backend call keeps it. */
  lemma StepKeepsInv(s: State, e: Step)
    requires BufferInv(s) && Can(s, e)
    ensures BufferInv(Next(s, e))
  {
    hide BufferInv;
    match e
    case Commit(id) => CommitKeepsInv(s, id);
    case Install(id) => InstallKeepsInv(s, id);
    case _ => OtherStepsKeepInv(s, e);
  }

  // ---- faithful reads ----

  /** The read answers with what the object holds; nothing counts as an empty object. */
  predicate Faithful(s: State, e: Step) {
    e.Fetch? ==> Contents(e.existing) == Contents(s.remote)
  }

  /** Some version of the file: the writes up to some point. */
  ghost predicate IsVersion(s: State, bytes: Bytes) {
    exists j :: 0 <= j <= |s.log| && bytes == Replay(s.base, s.log[..j])
  }

  ghost predicate WritersOk(s: State) {
    forall id | id in s.writers ::
      match s.writers[id]
      case NeedsRead(_) => true
      case Fetched(_, existing) => IsVersion(s, Contents(existing))
      case Ready(_) => s.seed == s.base
  }

  /** Everything is built on the content at open. */
  ghost predicate FaithfulInv(s: State) {
    && (s.seed == s.base || (s.seed == [] && s.log == []))
    && (s.log != [] ==> s.seed == s.base)
    && (forall k | k in s.flights :: s.flights[k].version.seed == s.base)
    && (s.last.Some? ==> s.last.value.seed == s.base)
    && WritersOk(s)
  }

  lemma VersionStays(s: State, t: State, bytes: Bytes)
    requires IsVersion(s, bytes) && s.log <= t.log && t.base == s.base
    ensures IsVersion(t, bytes)
  {
    var j :| 0 <= j <= |s.log| && bytes == Replay(s.base, s.log[..j]);
    assert t.log[..j] == s.log[..j];
  }

  lemma ObjectIsVersion(s: State)
    requires BufferInv(s) && FaithfulInv(s)
    ensures IsVersion(s, Contents(s.remote))
  {
    hide HandleOk, FlightsOk, WritersOk, Patch;
    assert s.log[..0] == [];
    assert Contents(s.remote) == Replay(s.base, s.log[..LastGeneration(s)]);
  }

  /** The re-check under the lock: what a writer installs, if anything, is the content at open. */
  lemma InstalledBase(s: State, id: nat)
    requires BufferInv(s) && FaithfulInv(s) && Can(s, Install(id))
    ensures Next(s, Install(id)).seed == s.base
  {
    var existing := s.writers[id].existing;
    assert IsVersion(s, Contents(existing));
    var j :| 0 <= j <= |s.log| && Contents(existing) == Replay(s.base, s.log[..j]);
    if s.log == [] {
      assert s.log[..j] == [];
    } else if Pristine(s.file) {
      HollowLog(s.base, s.log, []);
      ReplayGrows(s.base, s.log, j);
    }
  }

  lemma SeedStaysBase(s: State, e: Step)
    requires BufferInv(s) && FaithfulInv(s) && Can(s, e)
    ensures var t := Next(s, e);
            && (t.seed == t.base || (t.seed == [] && t.log == []))
            && (t.log != [] ==> t.seed == t.base)
            && (forall k | k in t.flights :: t.flights[k].version.seed == t.base)
            && (t.last.Some? ==> t.last.value.seed == t.base)
    ensures forall id | id in Next(s, e).writers && Next(s, e).writers[id].Ready? :: Next(s, e).seed == s.base
  {
    if e.Install? {
      InstalledBase(s, e.id);
    }
    hide Patch, IsVersion;
  }

  lemma WritersStayOk(s: State, e: Step)
    requires WritersOk(s) && Can(s, e) && IsVersion(s, Contents(s.remote)) && Faithful(s, e)
    requires forall id | id in Next(s, e).writers && Next(s, e).writers[id].Ready? :: Next(s, e).seed == s.base
    ensures WritersOk(Next(s, e))
  {
    hide Patch, Replay, IsVersion;
    var t := Next(s, e);
    forall k | k in t.writers && t.writers[k].Fetched? ensures IsVersion(t, Contents(t.writers[k].existing)) {
      if k in s.writers && s.writers[k] == t.writers[k] {
        VersionStays(s, t, Contents(s.writers[k].existing));
      } else {
        VersionStays(s, t, Contents(s.remote));
      }
    }
  }

  lemma StepKeepsFaithful(s: State, e: Step)
    requires BufferInv(s) && FaithfulInv(s) && Can(s, e) && Faithful(s, e)
    ensures FaithfulInv(Next(s, e))
  {
    ObjectIsVersion(s);
    SeedStaysBase(s, e);
    hide BufferInv, IsVersion, Can;
    WritersStayOk(s, e);
    KeepsBase(s, e);
  }

  // ---- PUTs in order ----

  predicate Lands(e: Step) { e.PutOk? || (e.PutFails? && e.lands) }

  /** No PUT reaches the object after one of a newer snapshot. */
  predicate InOrder(s: State, e: Step)
    requires Can(s, e)
  {
    Lands(e) ==> s.flights[e.flush].version.generation >= s.newest
  }

  function LastGeneration(s: State): nat { if s.last.Some? then s.last.value.generation else 0 }

  /** A flush starts only when none is under way. */
  predicate Alone(s: State, e: Step) {
    e.Snapshot? ==> s.flights == map[]
  }

  /** At most one flush is under way, and nothing newer than its snapshot has landed. */
  ghost predicate AloneInv(s: State) {
    && (forall k, l | k in s.flights && l in s.flights :: k == l)
    && (forall k | k in s.flights :: s.flights[k].version.generation >= s.newest)
  }

  lemma AloneIsInOrder(s: State, e: Step)
    requires BufferInv(s) && AloneInv(s) && Can(s, e) && Alone(s, e)
    ensures InOrder(s, e) && AloneInv(Next(s, e))
  {
    hide Patch, Replay;
  }

  // ---- all interleavings ----

  ghost predicate Run(s: State, es: seq<Step>, t: State)
    decreases |es|
  {
    if es == [] then t == s else Can(s, es[0]) && Run(Next(s, es[0]), es[1..], t)
  }

  ghost predicate AllFaithful(s: State, es: seq<Step>)
    decreases |es|
  {
    es != [] && Can(s, es[0]) ==> Faithful(s, es[0]) && AllFaithful(Next(s, es[0]), es[1..])
  }

  ghost predicate AllInOrder(s: State, es: seq<Step>)
    decreases |es|
  {
    es != [] && Can(s, es[0]) ==> InOrder(s, es[0]) && AllInOrder(Next(s, es[0]), es[1..])
  }

  ghost predicate AllAlone(s: State, es: seq<Step>)
    decreases |es|
  {
    es != [] && Can(s, es[0]) ==> Alone(s, es[0]) && AllAlone(Next(s, es[0]), es[1..])
  }

  lemma KeepsBase(s: State, e: Step)
    requires Can(s, e)
    ensures Next(s, e).base == s.base
  {
  }

  /** The same over every interleaving; faithful reads and ordered PUTs carry over too. */
  lemma {:induction false} RunKeepsInv(s: State, es: seq<Step>, t: State)
    requires BufferInv(s) && Run(s, es, t)
    ensures BufferInv(t) && t.base == s.base
    ensures FaithfulInv(s) && AllFaithful(s, es) ==> FaithfulInv(t)
    ensures LastGeneration(s) == s.newest && AllInOrder(s, es) ==> LastGeneration(t) == t.newest
    decreases |es|
  {
    hide BufferInv, FaithfulInv, Can, Faithful, InOrder, LastGeneration;
    if es == [] {
    } else {
      assert Can(s, es[0]);
      StepKeepsInv(s, es[0]);
      KeepsBase(s, es[0]);
      if FaithfulInv(s) && Faithful(s, es[0]) {
        StepKeepsFaithful(s, es[0]);
      }
      if LastGeneration(s) == s.newest && InOrder(s, es[0]) {
        StepKeepsLast(s, es[0]);
      }
      RunKeepsInv(Next(s, es[0]), es[1..], t);
    }
  }

  lemma StepKeepsLast(s: State, e: Step)
    requires LastGeneration(s) == s.newest && Can(s, e) && InOrder(s, e)
    ensures LastGeneration(Next(s, e)) == Next(s, e).newest
  {
  }

  /** One flush at a time is enough for the order. */
  lemma {:induction false} OneFlushInOrder(s: State, es: seq<Step>, t: State)
    requires BufferInv(s) && AloneInv(s) && Run(s, es, t) && AllAlone(s, es)
    ensures AllInOrder(s, es)
    decreases |es|
  {
    hide BufferInv, AloneInv, Can, Alone, InOrder;
    if es == [] {
    } else {
      assert Can(s, es[0]);
      StepKeepsInv(s, es[0]);
      AloneIsInOrder(s, es[0]);
      OneFlushInOrder(Next(s, es[0]), es[1..], t);
    }
  }

  // ---- results ----

  /** Whatever reads answer and however many flushes overlap: the buffer is the bytes the first write was
      built on under every accepted write in commit order, and the object is the version of the PUT that
      landed last, untouched if none has. If reads answer the object, that is the content at open under the
      writes accepted before the snapshot of that PUT. */
  lemma ObjectIs(remote: Option<Bytes>, es: seq<Step>, t: State)
    requires Run(Start(remote), es, t)
    ensures t.file.buffer == Replay(t.seed, t.log)
    ensures match t.last
            case None => Contents(t.remote) == Contents(remote)
            case Some(v) => v.generation <= |t.log| && t.remote == Some(VersionBytes(t, v))
    ensures AllFaithful(Start(remote), es) ==>
              LastGeneration(t) <= |t.log| &&
              Contents(t.remote) == Replay(Contents(remote), t.log[..LastGeneration(t)])
  {
    StartInv(remote);
    RunKeepsInv(Start(remote), es, t);
    assert t.log[..0] == [];
  }

  /** Racing first writes: once any write is accepted, the buffer is the original content under all
      accepted writes in commit order, however many writers read the backend outside the lock, and
      however many flushes overlap. */
  lemma NoWriteDiscarded(remote: Option<Bytes>, es: seq<Step>, t: State)
    requires Run(Start(remote), es, t) && AllFaithful(Start(remote), es) && t.log != []
    ensures t.file.buffer == Replay(Contents(remote), t.log)
  {
    StartInv(remote);
    RunKeepsInv(Start(remote), es, t);
  }

  /** If PUTs land in the order of their snapshots, then whenever the handle is clean the object holds
      every accepted write. */
  lemma NoLostWrite(remote: Option<Bytes>, es: seq<Step>, t: State)
    requires Run(Start(remote), es, t) && AllFaithful(Start(remote), es) && AllInOrder(Start(remote), es)
    requires !t.file.dirty
    ensures Contents(t.remote) == Replay(Contents(remote), t.log)
    ensures t.file.buffer != [] ==> Contents(t.remote) == t.file.buffer
  {
    StartInv(remote);
    RunKeepsInv(Start(remote), es, t);
    assert t.log[..|t.log|] == t.log;
  }

  /** One flush at a time is such an order. */
  lemma OneFlushLosesNothing(remote: Option<Bytes>, es: seq<Step>, t: State)
    requires Run(Start(remote), es, t) && AllFaithful(Start(remote), es) && AllAlone(Start(remote), es)
    requires !t.file.dirty
    ensures Contents(t.remote) == Replay(Contents(remote), t.log)
  {
    StartInv(remote);
    OneFlushInOrder(Start(remote), es, t);
    NoLostWrite(remote, es, t);
  }

  /** In any order, with any number of flushes: a clean handle is right exactly when, of the writes
      accepted after the snapshot that landed last, none ends behind the object, and each byte they cover
      already has there the value of the last of them. */
  lemma CleanHandleIff(remote: Option<Bytes>, es: seq<Step>, t: State)
    requires Run(Start(remote), es, t) && AllFaithful(Start(remote), es) && !t.file.dirty
    ensures LastGeneration(t) <= |t.log|
    ensures var missing, stored := t.log[LastGeneration(t)..], Contents(t.remote);
            stored == Replay(Contents(remote), t.log) <==>
            && LogEnd(missing) <= |stored|
            && forall i: nat | Touched(missing, i) :: ByteAt(stored, i) == LastByte(missing, i)
  {
    StartInv(remote);
    RunKeepsInv(Start(remote), es, t);
    assert t.log[..0] == [];
    ReplaySplit(t.base, t.log, LastGeneration(t));
    ReplayFixedIff(Contents(t.remote), t.log[LastGeneration(t)..]);
  }

  /** A write is lost when the PUT of an older snapshot lands last, under a handle already clean. */
  lemma TwoFlushesLoseAWrite() returns (es: seq<Step>, t: State)
    ensures Run(Start(None), es, t) && AllFaithful(Start(None), es)
    ensures !t.file.dirty && t.flights == map[] && t.writers == map[]
    ensures t.log == [WriteReq(0, [1]), WriteReq(0, [2])] && t.remote == Some([1])
    ensures Contents(t.remote) != Replay([], t.log)
  {
    var w1, w2 := WriteReq(0, [1]), WriteReq(0, [2]);
    assert Patch([], w1) == [1] && Patch([1], w2) == [2];
    ReplayTwo([], w1, w2);
    hide Run, AllFaithful, AllInOrder, Patch, Replay, Can, Next;
    es, t := FirstWrite(None, None, w1);
    es, t := SnapshotThenWrite(Start(None), es, t, 1, w2, 2);
    es, t := RacingPuts(Start(None), es, t, 1, 2);
  }

  /** From a dirty handle: a flush takes its snapshot, another write is accepted, and another flush starts. */
  lemma SnapshotThenWrite(s: State, es: seq<Step>, t: State, k: nat, w: WriteReq, l: nat)
    returns (es': seq<Step>, t': State)
    requires Run(s, es, t) && AllFaithful(s, es)
    requires t.file.dirty && t.writers == map[] && t.flights == map[] && k != l
    ensures Run(s, es', t') && AllFaithful(s, es')
    ensures var buffer, version := Patch(t.file.buffer, w), Version(t.seed, t.file.generation);
            t' == t.(file := OpenFile(buffer, true, t.file.generation + 1), log := t.log + [w],
                     flights := map[k := Flight(t.file.buffer, version, false),
                                    l := Flight(buffer, version.(generation := t.file.generation + 1), false)])
  {
    hide Run, AllFaithful, AllInOrder, Patch;
    es', t' := AndStep(s, es, t, Snapshot(k));
    es', t' := AndStep(s, es', t', Begin(0, w));
    es', t' := AndStep(s, es', t', Commit(0));
    assert t'.writers == map[];
    es', t' := AndStep(s, es', t', Snapshot(l));
  }

  /** The newer of two snapshots lands and cleans the handle, then the older lands. */
  lemma RacingPuts(s: State, es: seq<Step>, t: State, k: nat, l: nat) returns (es': seq<Step>, t': State)
    requires Run(s, es, t) && AllFaithful(s, es) && t.flights.Keys == {k, l} && k != l
    requires !t.flights[k].stored && !t.flights[l].stored
    requires t.flights[k].version.generation < t.flights[l].version.generation == t.file.generation
    ensures Run(s, es', t') && AllFaithful(s, es')
    ensures t'.remote == Some(t.flights[k].data) && !t'.file.dirty && t'.flights == map[]
    ensures t'.log == t.log && t'.writers == t.writers
  {
    hide Run, AllFaithful, AllInOrder, Patch;
    es', t' := AndStep(s, es, t, PutOk(l));
    es', t' := AndStep(s, es', t', Mark(l));
    assert !t'.file.dirty && t'.remote == Some(t.flights[l].data);
    es', t' := AndStep(s, es', t', PutOk(k));
    es', t' := AndStep(s, es', t', Mark(k));
    assert t'.flights.Keys == {};
  }

  /** The bytes a write on this handle reads first: those its read answers if there is need for one. */
  function ReadFirst(f: OpenFile, existing: Option<Bytes>): Option<Bytes> {
    if Pristine(f) then existing else None
  }

  /** One whole `write_at` is a run of these steps: it reads if it must, installs, and commits. */
  lemma WholeWrite(s: State, es: seq<Step>, t: State, w: WriteReq, existing: Option<Bytes>)
    returns (es': seq<Step>, t': State)
    requires Run(s, es, t) && t.writers == map[]
    ensures Run(s, es', t') && (AllInOrder(s, es) ==> AllInOrder(s, es'))
    ensures AllFaithful(s, es) && (Pristine(t.file) ==> Contents(existing) == Contents(t.remote)) ==>
              AllFaithful(s, es')
    ensures var seed := if ReadFirst(t.file, existing).Some? then existing.value else t.seed;
            t' == t.(file := CommitFile(InstallFile(t.file, ReadFirst(t.file, existing)), w),
                     seed := seed, log := t.log + [w])
  {
    hide Run, AllFaithful, AllInOrder, Patch;
    es', t' := AndStep(s, es, t, Begin(0, w));
    if Pristine(t.file) {
      es', t' := AndStep(s, es', t', Fetch(0, existing));
      es', t' := AndStep(s, es', t', Install(0));
    }
    es', t' := AndStep(s, es', t', Commit(0));
    assert t'.writers == map[];
  }

  /** The first write of a handle, over whatever its read answers. */
  lemma FirstWrite(remote: Option<Bytes>, existing: Option<Bytes>, w: WriteReq) returns (es: seq<Step>, t: State)
    ensures Run(Start(remote), es, t) && AllInOrder(Start(remote), es)
    ensures Contents(existing) == Contents(remote) ==> AllFaithful(Start(remote), es)
    ensures t == State(remote, OpenFile(Patch(Contents(existing), w), true, 1), map[], map[],
                       Contents(remote), Contents(existing), [w], None, 0)
  {
    hide Run, AllFaithful, AllInOrder, Patch;
    NoSteps(Start(remote));
    es, t := WholeWrite(Start(remote), [], Start(remote), w, existing);
  }

  /** Two first writers read the object before either has installed anything; the second install is then
      left out, and both writes are in the buffer. */
  lemma RacingFirstWriters(remote: Option<Bytes>, v: WriteReq, w: WriteReq) returns (es: seq<Step>, t: State)
    ensures es == [Begin(0, v), Begin(1, w), Fetch(0, remote), Fetch(1, remote)] +
                  [Install(0), Commit(0), Install(1), Commit(1)]
    ensures Run(Start(remote), es, t) && AllFaithful(Start(remote), es)
    ensures t.log == [v, w] && t.file == OpenFile(Replay(Contents(remote), [v, w]), true, 2) && t.writers == map[]
  {
    ReplayTwo(Contents(remote), v, w);
    hide Run, AllFaithful, AllInOrder, InOrder, Patch, Replay, Can, Next, Faithful;
    es, t := BothRead(remote, v, w);
    es, t := InstallAndCommit(Start(remote), es, t, 0, v, remote);
    assert t.writers == map[1 := Fetched(w, remote)];
    es, t := InstallAndCommit(Start(remote), es, t, 1, w, remote);
    assert t.writers == map[];
    assert es == [Begin(0, v), Begin(1, w), Fetch(0, remote), Fetch(1, remote)] +
                 [Install(0), Commit(0), Install(1), Commit(1)];
  }

  lemma BothRead(remote: Option<Bytes>, v: WriteReq, w: WriteReq) returns (es: seq<Step>, t: State)
    ensures es == [Begin(0, v), Begin(1, w), Fetch(0, remote), Fetch(1, remote)]
    ensures Run(Start(remote), es, t) && AllFaithful(Start(remote), es)
    ensures t == Start(remote).(writers := map[0 := Fetched(v, remote), 1 := Fetched(w, remote)])
  {
    hide Run, AllFaithful, AllInOrder, InOrder, Patch, Replay;
    var s := Start(remote);
    NoSteps(s);
    es, t := AndStep(s, [], s, Begin(0, v));
    es, t := AndStep(s, es, t, Begin(1, w));
    es, t := AndStep(s, es, t, Fetch(0, remote));
    es, t := AndStep(s, es, t, Fetch(1, remote));
  }

  /** The second half of a write that has read. */
  lemma InstallAndCommit(s: State, es: seq<Step>, t: State, id: nat, w: WriteReq, existing: Option<Bytes>)
    returns (es': seq<Step>, t': State)
    requires Run(s, es, t) && AllFaithful(s, es) && id in t.writers && t.writers[id] == Fetched(w, existing)
    ensures es' == es + [Install(id), Commit(id)] && Run(s, es', t') && AllFaithful(s, es')
    ensures t' == t.(file := CommitFile(InstallFile(t.file, existing), w), log := t.log + [w],
                     seed := if Pristine(t.file) && existing.Some? then existing.value else t.seed,
                     writers := t.writers - {id})
  {
    hide Run, AllFaithful, AllInOrder, InOrder, CommitFile, InstallFile;
    es', t' := AndStep(s, es, t, Install(id));
    es', t' := AndStep(s, es', t', Commit(id));
    assert t'.writers == t.writers - {id};
  }

  /** A flush whose PUT fails leaves the handle dirty with all its bytes, whether or not the PUT landed, and
      the next flush makes up for it. */
  lemma FailedFlushIsRetried(s: State, k: nat, lands: bool) returns (failed: State, t: State)
    requires k !in s.flights && s.file.dirty
    ensures Run(s, [Snapshot(k), PutFails(k, lands)], failed)
    ensures failed.file == s.file && failed.log == s.log && failed.flights == s.flights
    ensures failed.remote == if lands then Some(s.file.buffer) else s.remote
    ensures Run(failed, [Snapshot(k), PutOk(k), Mark(k)], t)
    ensures t.file == s.file.(dirty := false) && t.log == s.log && t.remote == Some(s.file.buffer)
  {
    hide Run, AllFaithful, AllInOrder, InOrder, Faithful;
    NoSteps(s);
    var es;
    es, failed := AndStep(s, [], s, Snapshot(k));
    assert failed.flights - {k} == s.flights;
    es, failed := AndStep(s, es, failed, PutFails(k, lands));
    assert es == [Snapshot(k), PutFails(k, lands)];
    NoSteps(failed);
    es, t := AndStep(failed, [], failed, Snapshot(k));
    es, t := AndStep(failed, es, t, PutOk(k));
    es, t := AndStep(failed, es, t, Mark(k));
    assert es == [Snapshot(k), PutOk(k), Mark(k)];
  }

  lemma NoSteps(s: State)
    ensures Run(s, [], s) && AllFaithful(s, []) && AllInOrder(s, [])
  {
  }

  lemma {:induction false} AndStep(s: State, es: seq<Step>, t: State, e: Step) returns (es': seq<Step>, t': State)
    requires Run(s, es, t) && Can(t, e)
    ensures es' == es + [e] && t' == Next(t, e) && Run(s, es', t')
    ensures AllFaithful(s, es) && Faithful(t, e) ==> AllFaithful(s, es')
    ensures AllInOrder(s, es) && InOrder(t, e) ==> AllInOrder(s, es')
    decreases |es|
  {
    hide Can, Faithful, InOrder, Next;
    es', t' := es + [e], Next(t, e);
    if es == [] {
      assert es'[1..] == [];
    } else {
      var rest, u := AndStep(Next(s, es[0]), es[1..], t, e);
      assert es'[1..] == rest;
    }
  }

  lemma ReplayTwo(a: Bytes, v: WriteReq, w: WriteReq)
    ensures Replay(a, [v, w]) == Patch(Patch(a, v), w)
  {
    assert [v, w][..1] == [v];
    ReplayOne(a, v);
  }

  /** The read of a first write through a cache that answers with old bytes, or a failed one
      (`read(..).ok()`), makes the buffer wrong exactly when those bytes and the object differ where no
      write goes. */
  lemma FirstReadIff(remote: Option<Bytes>, es: seq<Step>, t: State)
    requires Run(Start(remote), es, t)
    ensures t.file.buffer == Replay(Contents(remote), t.log) <==> SameOutside(t.seed, Contents(remote), t.log)
  {
    ObjectIs(remote, es, t);
    ReplayAgreesIff(t.seed, Contents(remote), t.log);
  }

  /** Old bytes from the read overwrite newer ones in the object, far from the write. */
  lemma StaleReadOverwrites() returns (es: seq<Step>, t: State)
    ensures Run(Start(Some([1, 1])), es, t) && AllInOrder(Start(Some([1, 1])), es)
    ensures t.log == [WriteReq(0, [9])] && !t.file.dirty
    ensures t.remote == Some([9, 2]) && Replay([1, 1], t.log) == [9, 1]
  {
    var s, w := Start(Some([1, 1])), WriteReq(0, [9]);
    assert Patch([2, 2], w) == [9, 2] && Patch([1, 1], w) == [9, 1];
    ReplayOne([1, 1], w);
    hide Run, AllFaithful, AllInOrder, Patch, Replay;
    es, t := FirstWrite(Some([1, 1]), Some([2, 2]), w);
    es, t := AndStep(s, es, t, Snapshot(1));
    es, t := AndStep(s, es, t, PutOk(1));
    es, t := AndStep(s, es, t, Mark(1));
  }

  lemma ReplayOne(a: Bytes, w: WriteReq)
    ensures Replay(a, [w]) == Patch(a, w)
  {
    assert [w][..0] == [];
  }

  /** For one write: the bytes read and the object must be equal before and behind it. */
  lemma FirstWriteIff(base: Bytes, existing: Option<Bytes>, w: WriteReq)
    ensures CommitFile(InstallFile(OPENED, existing), w).buffer == Patch(base, w) <==>
            && Max(|Contents(existing)|, w.offset + |w.data|) == Max(|base|, w.offset + |w.data|)
            && forall i: nat | !Covers(w, i) :: ByteAt(Contents(existing), i) == ByteAt(base, i)
  {
    var a := Contents(existing);
    ReplayOne(a, w);
    ReplayOne(base, w);
    ReplayAgreesIff(a, base, [w]);
    assert LogEnd([w]) == w.offset + |w.data|;
    forall i: nat ensures Touched([w], i) <==> Covers(w, i) {
      TouchedSnoc([w], i);
    }
  }

  /** A write accepted after all snapshots keeps the handle dirty until some later snapshot. */
  lemma LateWriteStaysDirty(s: State, id: nat, es: seq<Step>, t: State)
    requires BufferInv(s) && Can(s, Commit(id)) && Run(Next(s, Commit(id)), es, t)
    requires forall e | e in es :: !e.Snapshot?
    ensures t.file.dirty && |s.log| < |t.log| && t.log[..|s.log| + 1] == Next(s, Commit(id)).log
  {
    DirtyUntilSnapshot(Next(s, Commit(id)), es, t);
  }

  lemma {:induction false} DirtyUntilSnapshot(s: State, es: seq<Step>, t: State)
    requires Run(s, es, t) && forall e | e in es :: !e.Snapshot?
    requires s.file.dirty && forall k | k in s.flights :: s.flights[k].version.generation < s.file.generation
    ensures t.file.dirty && |s.log| <= |t.log| && t.log[..|s.log|] == s.log
    decreases |es|
  {
    hide Patch;
    if es == [] {
    } else {
      assert es[0] in es && forall e | e in es[1..] :: e in es;
      DirtyUntilSnapshot(Next(s, es[0]), es[1..], t);
      assert Next(s, es[0]).log[..|s.log|] == s.log;
    }
  }

  /** A release with nobody else at work: snapshot, successful PUT, mark. The object then is what the
      first write was built on under every accepted write, which is the original content under them
      exactly when the first read's bytes differ from it nowhere outside the writes. */
  lemma ReleaseStoresAll(remote: Option<Bytes>, es: seq<Step>, t: State, k: nat)
    requires Run(Start(remote), es, t) && t.flights == map[] && t.file.dirty
    ensures Can(t, Snapshot(k))
    ensures var u := Next(t, Snapshot(k));
            && Can(u, PutOk(k)) && Can(Next(u, PutOk(k)), Mark(k))
            && var v := Next(Next(u, PutOk(k)), Mark(k));
            && v.remote == Some(Replay(t.seed, t.log)) && !v.file.dirty && v.file.buffer == v.remote.value
            && (v.remote.value == Replay(Contents(remote), t.log) <==> SameOutside(t.seed, Contents(remote), t.log))
            && (AllFaithful(Start(remote), es) ==> v.remote.value == Replay(Contents(remote), t.log))
  {
    StartInv(remote);
    RunKeepsInv(Start(remote), es, t);
    ReplayAgreesIff(t.seed, Contents(remote), t.log);
  }
}
