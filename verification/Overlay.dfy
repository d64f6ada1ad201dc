/** What a list of slices means: later slices lie over earlier ones, holes are zero. */
module Overlay {
  import opened Types
  import opened MetaModel
  import opened CacheModel

  /** Bytes of `s` that its stored data can supply. */
  function SliceEnd(s: Slice, data: Store): nat
    requires s.id in data
  {
    s.offset + Min(|data[s.id]|, s.length)
  }

  predicate Covers(s: Slice, data: Store, off: nat) {
    s.id in data && s.offset <= off < SliceEnd(s, data)
  }

  /** The byte at `off` of a chunk: the last slice covering it decides. */
  function OverlayAt(slices: seq<Slice>, data: Store, off: nat): byte {
    if slices == [] then 0
    else
      var last := slices[|slices| - 1];
      if Covers(last, data, off) then data[last.id][off - last.offset]
      else OverlayAt(slices[..|slices| - 1], data, off)
  }

  /** `(pos / CHUNK_SIZE) as u32`. */
  function ChunkIndex(pos: nat): nat { (pos / CHUNK_SIZE) % U32 }

  /** Byte `i` of a file, if its slices hold `data`. */
  function FileByte(m: MetaState, data: Store, inode: nat, i: nat): byte {
    OverlayAt(ReadSlices(m, inode, ChunkIndex(i)), data, i % CHUNK_SIZE)
  }

  lemma OverlaySnoc(slices: seq<Slice>, s: Slice, data: Store, off: nat)
    ensures OverlayAt(slices + [s], data, off) ==
            if Covers(s, data, off) then data[s.id][off - s.offset] else OverlayAt(slices, data, off)
  {
    assert (slices + [s])[..|slices|] == slices;
  }

  /** Only the bytes of the listed ids matter. */
  lemma {:induction false} OverlayAgree(slices: seq<Slice>, d1: Store, d2: Store, off: nat)
    requires forall s | s in slices :: s.id in d1 && s.id in d2 && d1[s.id] == d2[s.id]
    ensures OverlayAt(slices, d1, off) == OverlayAt(slices, d2, off)
    decreases |slices|
  {
    if slices == [] {
    } else {
      OverlayAgree(slices[..|slices| - 1], d1, d2, off);
      assert slices[|slices| - 1] in slices;
    }
  }

  /** Beyond every slice there is nothing. */
  lemma {:induction false} OverlayBeyond(slices: seq<Slice>, data: Store, off: nat)
    requires forall s | s in slices :: s.offset + s.length <= off
    ensures OverlayAt(slices, data, off) == 0
    decreases |slices|
  {
    if slices == [] {
    } else {
      OverlayBeyond(slices[..|slices| - 1], data, off);
      assert slices[|slices| - 1] in slices;
    }
  }

  /** Chunks of 64 MiB, of which `u32` counts the first 2^32. */
  lemma ChunkOf(k: nat, r: nat)
    requires k < 0x1_0000_0000 && r < 67_108_864
    ensures ChunkIndex(67_108_864 * k + r) == k && (67_108_864 * k + r) % CHUNK_SIZE == r
  {
    var pos := 67_108_864 * k + r;
    assert pos / CHUNK_SIZE == k && pos % CHUNK_SIZE == r;
  }

  /** Two offsets share their byte exactly when they are a multiple of 2^58 apart: the `u32` index wraps. */
  lemma SharedIff(i: nat, j: nat)
    ensures ChunkIndex(i) == ChunkIndex(j) && i % CHUNK_SIZE == j % CHUNK_SIZE <==> i % MAX_OFFSET == j % MAX_OFFSET
  {
    InChunk(i);
    InChunk(j);
  }

  lemma InChunk(i: nat)
    ensures i % MAX_OFFSET == ChunkIndex(i) * CHUNK_SIZE + i % CHUNK_SIZE
  {
    var q := i / CHUNK_SIZE;
    var a, b, r := q / U32, q % U32, i % CHUNK_SIZE;
    assert q == a * U32 + b && i == q * CHUNK_SIZE + r;
    assert i == a * MAX_OFFSET + (b * CHUNK_SIZE + r);
    assert 0 <= b * CHUNK_SIZE + r < MAX_OFFSET;
  }

  /** So below 2^58 chunk and offset within the chunk locate a byte. */
  lemma Locate(i: nat, j: nat)
    requires i < MAX_OFFSET && j < MAX_OFFSET
    ensures ChunkIndex(i) == ChunkIndex(j) && i % CHUNK_SIZE == j % CHUNK_SIZE <==> i == j
  {
    SharedIff(i, j);
  }

  /** How far byte `i` lies behind `offset`, offsets that share their byte counted as one. */
  function Distance(offset: nat, i: nat): nat { (i - offset) % MAX_OFFSET }

  lemma ModuloUnique(x: int, q: int, r: nat)
    requires x == q * MAX_OFFSET + r && r < MAX_OFFSET
    ensures x % MAX_OFFSET == r
  {
  }

  lemma DistanceIs(offset: nat, i: nat)
    ensures var a, b := i % MAX_OFFSET, offset % MAX_OFFSET;
            Distance(offset, i) == if a >= b then a - b else a - b + MAX_OFFSET
  {
    var a, b := i % MAX_OFFSET, offset % MAX_OFFSET;
    var q := i / MAX_OFFSET - offset / MAX_OFFSET;
    assert i - offset == q * MAX_OFFSET + (a - b);
    if a >= b {
      ModuloUnique(i - offset, q, a - b);
    } else {
      ModuloUnique(i - offset, q - 1, a - b + MAX_OFFSET);
    }
  }

  /** Seen from `j` bytes further on. */
  lemma DistanceFrom(offset: nat, j: nat, i: nat)
    requires j <= MAX_OFFSET
    ensures var d := Distance(offset, i);
            Distance(offset + j, i) == if d >= j then d - j else d - j + MAX_OFFSET
  {
    var d := Distance(offset, i);
    var q := (i - offset) / MAX_OFFSET;
    assert i - (offset + j) == q * MAX_OFFSET + (d - j);
    if d >= j {
      ModuloUnique(i - (offset + j), q, d - j);
    } else {
      ModuloUnique(i - (offset + j), q - 1, d - j + MAX_OFFSET);
    }
  }

  /** Below 2^58 it is the difference. */
  lemma DistanceBelow(offset: nat, i: nat, len: nat)
    requires offset + len <= MAX_OFFSET && i < MAX_OFFSET
    ensures Distance(offset, i) < len <==> offset <= i < offset + len
    ensures offset <= i ==> Distance(offset, i) == i - offset
  {
  }

  /** ... and above it a file repeats itself. */
  lemma OffsetsAlias(m: MetaState, data: Store, inode: nat, i: nat, j: nat)
    requires i % MAX_OFFSET == j % MAX_OFFSET
    ensures FileByte(m, data, inode, i) == FileByte(m, data, inode, j)
  {
    SharedIff(i, j);
  }
}
