/** Constants and value types shared by the posix engines. */
module Types {
  newtype byte = x: int | 0 <= x < 0x100

  type Bytes = seq<byte>

  const CHUNK_SIZE: nat := 64 * 1024 * 1024
  const ROOT_INODE: nat := 1
  const NAME_MAX: nat := 255

  /** Number of values of Rust's `u32`, for truncating casts. */
  const U32: nat := 0x1_0000_0000

  /** Offsets up to here have a chunk index that fits `u32`. */
  const MAX_OFFSET: nat := CHUNK_SIZE * U32

  datatype Option<+T> = None | Some(value: T)

  datatype Result<+T, +E> = Ok(value: T) | Err(error: E)

  datatype FileType = Regular | Directory | Symlink | Fifo | Socket | BlockDevice | CharDevice

  /** `length` bytes of stored slice `id`, placed at `offset` inside a chunk. */
  datatype Slice = Slice(id: nat, offset: nat, length: nat)

  function Min(a: int, b: int): int { if a <= b then a else b }

  function Max(a: int, b: int): int { if a <= b then b else a }
}
