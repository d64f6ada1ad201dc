/** The write-ahead log: record format, torn-tail parser and the log file itself. */
module WriteAheadLog {
  import opened Types

  datatype Record = Record(id: nat, data: Bytes)

  /** slice_id: u64 LE, then data_len: u32 LE. */
  const ENTRY_HEADER: nat := 12

  /** The `k` low-order base-256 digits of `n`, least significant first: `to_le_bytes`. */
  function ToLe(n: nat, k: nat): (b: Bytes)
    ensures |b| == k
  {
    if k == 0 then [] else [(n % 0x100) as byte] + ToLe(n / 0x100, k - 1)
  }

  function FromLe(b: Bytes): nat {
    if b == [] then 0 else b[0] as nat + 0x100 * FromLe(b[1..])
  }

  function Pow256(k: nat): nat {
    if k == 0 then 1 else 0x100 * Pow256(k - 1)
  }

  lemma {:induction false} LeRoundTrip(n: nat, k: nat)
    requires n < Pow256(k)
    ensures FromLe(ToLe(n, k)) == n
  {
    if k == 0 {
    } else {
      LeRoundTrip(n / 0x100, k - 1);
      assert ToLe(n, k)[1..] == ToLe(n / 0x100, k - 1);
    }
  }

  function Header(r: Record): (h: Bytes)
    ensures |h| == ENTRY_HEADER
  {
    ToLe(r.id, 8) + ToLe(|r.data|, 4)
  }

  function Encode(r: Record): (b: Bytes)
    ensures |b| == ENTRY_HEADER + |r.data|
  {
    Header(r) + r.data
  }

  function EncodeAll(rs: seq<Record>): Bytes {
    if rs == [] then [] else Encode(rs[0]) + EncodeAll(rs[1..])
  }

  /** The id in eight bytes, the length in four, least significant first, and the bytes. */
  lemma RecordLayout()
    ensures Encode(Record(0x102, [7])) == [2, 1, 0, 0, 0, 0, 0, 0, 1, 0, 0, 0, 7]
  {
    assert ToLe(0, 2) == [0, 0] && ToLe(0, 3) == [0] + ToLe(0, 2);
    assert ToLe(0, 4) == [0, 0] + ToLe(0, 2) && ToLe(0, 6) == [0, 0] + ToLe(0, 4);
    assert ToLe(1, 4) == [1] + ToLe(0, 3) && ToLe(1, 7) == [1] + ToLe(0, 6);
    assert ToLe(0x102, 8) == [2] + ToLe(1, 7);
  }

  /** The id is a `u64` and the length survives the cast to `u32`. */
  predicate Fits(r: Record) {
    r.id < 0x1_0000_0000_0000_0000 && |r.data| < U32
  }

  /** A whole record starts at the front of `f`. */
  predicate HasRecord(f: Bytes) {
    ENTRY_HEADER <= |f| && ENTRY_HEADER + FromLe(f[8..12]) <= |f|
  }

  function HeadRecord(f: Bytes): Record
    requires HasRecord(f)
  {
    Record(FromLe(f[..8]), f[ENTRY_HEADER..ENTRY_HEADER + FromLe(f[8..12])])
  }

  function AfterRecord(f: Bytes): (rest: Bytes)
    requires HasRecord(f)
    ensures |rest| < |f|
  {
    f[ENTRY_HEADER + FromLe(f[8..12])..]
  }

  /** The records that a reader of log contents `f` gets before it runs out of bytes. */
  function ParseAll(f: Bytes): seq<Record>
    decreases |f|
  {
    if HasRecord(f) then [HeadRecord(f)] + ParseAll(AfterRecord(f)) else []
  }

  /** No torn record is left at the end of `f`. */
  predicate Aligned(f: Bytes)
    decreases |f|
  {
    f == [] || (HasRecord(f) && Aligned(AfterRecord(f)))
  }

  lemma {:induction false} EncodeParses(r: Record, g: Bytes)
    requires Fits(r)
    ensures HasRecord(Encode(r) + g)
    ensures HeadRecord(Encode(r) + g) == r
    ensures AfterRecord(Encode(r) + g) == g
  {
    var f := Encode(r) + g;
    assert f[..8] == ToLe(r.id, 8);
    assert f[8..12] == ToLe(|r.data|, 4);
    assert Pow256(8) == 0x1_0000_0000_0000_0000 && Pow256(4) == U32;
    LeRoundTrip(r.id, 8);
    LeRoundTrip(|r.data|, 4);
  }

  /** Bytes after a whole record do not change how it is read. */
  lemma HeadOfConcat(f: Bytes, g: Bytes)
    requires HasRecord(f)
    ensures HasRecord(f + g) && HeadRecord(f + g) == HeadRecord(f)
    ensures AfterRecord(f + g) == AfterRecord(f) + g
  {
    var h := f + g;
    assert h[8..12] == f[8..12];
    assert h[..8] == f[..8];
    var n := ENTRY_HEADER + FromLe(f[8..12]);
    assert h[ENTRY_HEADER..n] == f[ENTRY_HEADER..n];
    assert h[n..] == f[n..] + g;
  }

  /** Parsing is compositional over a log that ends on a record boundary. */
  lemma {:induction false} ParseConcat(f: Bytes, g: Bytes)
    requires Aligned(f)
    ensures ParseAll(f + g) == ParseAll(f) + ParseAll(g)
    ensures Aligned(f + g) <==> Aligned(g)
    decreases |f|
  {
    hide HasRecord, HeadRecord, AfterRecord;
    if f == [] {
      assert f + g == g;
    } else {
      HeadOfConcat(f, g);
      ParseConcat(AfterRecord(f), g);
      calc {
        ParseAll(f + g);
        [HeadRecord(f)] + ParseAll(AfterRecord(f) + g);
        [HeadRecord(f)] + (ParseAll(AfterRecord(f)) + ParseAll(g));
        ParseAll(f) + ParseAll(g);
      }
    }
  }

  /** One append to an aligned log adds exactly that record. */
  lemma AppendParses(f: Bytes, r: Record)
    requires Aligned(f) && Fits(r)
    ensures ParseAll(f + Encode(r)) == ParseAll(f) + [r]
    ensures Aligned(f + Encode(r))
  {
    EncodeParses(r, []);
    assert Encode(r) + [] == Encode(r);
    ParseConcat(f, Encode(r));
  }

  /** A strict prefix of a record parses to nothing. */
  lemma TornRecord(r: Record, torn: Bytes)
    requires Fits(r) && torn < Encode(r)
    ensures ParseAll(torn) == [] && !HasRecord(torn)
  {
    if ENTRY_HEADER <= |torn| {
      assert torn[8..12] == Encode(r)[8..12] == ToLe(|r.data|, 4);
      assert Pow256(4) == U32;
      LeRoundTrip(|r.data|, 4);
    }
  }

  /** A crash inside an append: the log keeps all its records and gains none. */
  lemma TornAppend(f: Bytes, r: Record, torn: Bytes)
    requires Aligned(f) && Fits(r) && torn < Encode(r)
    ensures ParseAll(f + torn) == ParseAll(f)
    ensures Aligned(f + torn) <==> torn == []
  {
    TornRecord(r, torn);
    ParseConcat(f, torn);
  }

  lemma {:induction false} EncodeAllParses(rs: seq<Record>)
    requires forall r | r in rs :: Fits(r)
    ensures Aligned(EncodeAll(rs)) && ParseAll(EncodeAll(rs)) == rs
  {
    if rs == [] {
    } else {
      EncodeParses(rs[0], EncodeAll(rs[1..]));
      EncodeAllParses(rs[1..]);
    }
  }

  /** Round trip with a torn tail, for every list of records and every cut of one more record. */
  lemma RoundTrip(rs: seq<Record>, r: Record, torn: Bytes)
    requires (forall x | x in rs :: Fits(x)) && Fits(r) && torn < Encode(r)
    ensures ParseAll(EncodeAll(rs) + torn) == rs
  {
    EncodeAllParses(rs);
    TornAppend(EncodeAll(rs), r, torn);
  }

  /** Appending after a torn tail loses the new record: replay does not truncate the tail. */
  lemma AppendAfterTornLosesRecord(r: Record)
    requires r.id < 0x100_0000_0000_0000 && 0 < |r.data| < 0x100_0000
    ensures exists torn: Bytes :: torn < Encode(r) && ParseAll(torn + Encode(r)) == []
  {
    var torn := Encode(r)[..1];
    assert torn == [Encode(r)[0]];
    LostBehindByte(torn[0], r);
    assert torn < Encode(r);
  }

  /** Behind one stray byte a record is read one byte early, which takes its length for 256 times what it
      is: reading runs out of bytes. */
  lemma LostBehindByte(stray: byte, r: Record)
    requires r.id < 0x100_0000_0000_0000 && 0 < |r.data| < 0x100_0000
    ensures ParseAll([stray] + Encode(r)) == []
  {
    var f := [stray] + Encode(r);
    assert Pow256(7) == 0x100_0000_0000_0000 && Pow256(3) == 0x100_0000;
    ToLeTop(r.id, 7);
    ToLeTop(|r.data|, 3);
    LeRoundTrip(|r.data|, 3);
    assert f == [stray] + ToLe(r.id, 7) + [0] + ToLe(|r.data|, 3) + [0] + r.data;
    hide ToLe, Pow256, Encode;
    assert f[8..12] == [0] + ToLe(|r.data|, 3);
    assert FromLe([0] + ToLe(|r.data|, 3)) == 0x100 * |r.data| by {
      assert ([0] + ToLe(|r.data|, 3))[1..] == ToLe(|r.data|, 3);
    }
    assert |f| == 1 + ENTRY_HEADER + |r.data|;
  }

  /** A number that needs one byte less has a zero on top. */
  lemma {:induction false} ToLeTop(n: nat, k: nat)
    requires n < Pow256(k)
    ensures ToLe(n, k + 1) == ToLe(n, k) + [0]
    decreases k
  {
    if k == 0 {
      assert ToLe(0, 1) == [0] + ToLe(0, 0);
    } else {
      ToLeTop(n / 0x100, k - 1);
    }
  }

  lemma LowDigit(b: Bytes)
    requires b != []
    ensures FromLe(b) % 0x100 == b[0] as nat
  {
    assert FromLe(b) == b[0] as nat + 0x100 * FromLe(b[1..]);
  }

  /** Every log with a torn tail has a record whose append is misread. */
  lemma {:induction false} UnalignedLoses(f: Bytes) returns (r: Record)
    requires !Aligned(f)
    ensures Fits(r) && ParseAll(f + Encode(r)) != ParseAll(f) + [r]
    decreases |f|
  {
    if HasRecord(f) {
      r := UnalignedLoses(AfterRecord(f));
      HeadOfConcat(f, Encode(r));
      var g := f + Encode(r);
      assert ParseAll(g)[1..] == ParseAll(AfterRecord(g));
      assert (ParseAll(f) + [r])[1..] == ParseAll(AfterRecord(f)) + [r];
    } else {
      r := Record((f[0] as nat + 1) % 0x100, []);
      var g := f + Encode(r);
      if HasRecord(g) {
        LowDigit(g[..8]);
        assert ParseAll(g)[0].id != r.id;
      }
      assert (ParseAll(f) + [r])[0] == r;
    }
  }

  /** An append is read back, whatever it is, exactly when the log had no torn tail. */
  lemma AppendSafeIffAligned(f: Bytes)
    ensures Aligned(f) <==> forall r: Record | Fits(r) :: ParseAll(f + Encode(r)) == ParseAll(f) + [r]
  {
    if Aligned(f) {
      forall r: Record | Fits(r) ensures ParseAll(f + Encode(r)) == ParseAll(f) + [r] {
        AppendParses(f, r);
      }
    } else {
      var r := UnalignedLoses(f);
    }
  }

  /** The log file. Appends go to its end; reads scan it from the start. Calls are numbered, and
      `faults(n)` tells how far the one of number `n` gets if it fails. */
  class Wal {
    var file: Bytes
    var calls: nat
    const faults: nat -> Option<nat>

    constructor (contents: Bytes, faults: nat -> Option<nat>)
      ensures file == contents && calls == 0 && this.faults == faults
    {
      file, calls := contents, 0;
      this.faults := faults;
    }

    /** The next call will not fail. */
    predicate Works()
      reads this`calls
    {
      faults(calls).None?
    }

    ghost predicate Reliable() {
      forall n :: faults(n).None?
    }

    /** What the next append of this record adds to the file: all of it, or what a failing call got to. */
    function Reach(r: Record): (b: Bytes)
      reads this`calls
      ensures b <= Encode(r) && (Works() ==> b == Encode(r))
    {
      match faults(calls)
      case None => Encode(r)
      case Some(n) => Encode(r)[..Min(n, |Encode(r)|)]
    }

    /** The next append of this record gets all the way. */
    predicate Reaches(id: nat, data: Bytes)
      reads this`calls
    {
      Reach(Record(id, data)) == Encode(Record(id, data))
    }

    method Append(id: nat, data: Bytes) returns (ok: bool)
      modifies this`file, this`calls
      ensures file == old(file) + old(Reach(Record(id, data)))
      ensures calls == old(calls) + 1 && ok == old(Works())
    {
      var fault := faults(calls);
      calls := calls + 1;
      var bytes := ToLe(id, 8);
      bytes := bytes + ToLe(|data|, 4);
      bytes := bytes + data;
      if fault.Some? {
        file := file + bytes[..Min(fault.value, |bytes|)];
        return false;
      }
      file := file + bytes;
      return true;
    }

    /** The reading loop, up to the end of the file or a torn record. */
    method Scan() returns (entries: seq<Record>)
      ensures entries == ParseAll(file)
    {
      if |file| == 0 {
        return [];
      }
      entries := [];
      var cursor := 0;
      while true
        invariant 0 <= cursor <= |file|
        invariant ParseAll(file) == entries + ParseAll(file[cursor..])
        decreases |file| - cursor
      {
        var left := file[cursor..];
        if |left| < ENTRY_HEADER {
          assert ParseAll(left) == [] && ParseAll(file) == entries;
          break;
        }
        var header := left[..ENTRY_HEADER];
        assert header[..8] == left[..8] && header[8..12] == left[8..12];
        var sliceId := FromLe(header[..8]);
        var dataLen := FromLe(header[8..12]);
        if |left| - ENTRY_HEADER < dataLen {
          assert ParseAll(left) == [] && ParseAll(file) == entries;
          break;
        }
        entries := entries + [Record(sliceId, left[ENTRY_HEADER..ENTRY_HEADER + dataLen])];
        cursor := cursor + ENTRY_HEADER + dataLen;
        assert file[cursor..] == AfterRecord(left);
      }
    }

    method ReadAll() returns (r: Result<seq<Record>, ()>)
      modifies this`calls
      ensures calls == old(calls) + 1
      ensures r == if old(Works()) then Ok(ParseAll(file)) else Err(())
    {
      var fault := faults(calls);
      calls := calls + 1;
      if fault.Some? {
        return Err(());
      }
      var entries := Scan();
      return Ok(entries);
    }

    /** A failing call leaves the file alone, or fails to rewind it after emptying it. */
    method Clear() returns (ok: bool)
      modifies this`file, this`calls
      ensures calls == old(calls) + 1 && ok == old(Works())
      ensures file == if old(faults(calls)) == Some(0) then old(file) else []
    {
      var fault := faults(calls);
      calls := calls + 1;
      if fault != Some(0) {
        file := [];
      }
      return fault.None?;
    }
  }
}
