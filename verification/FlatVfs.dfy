/** Flat mode's open files, one call at a time; FlatBuffer interleaves the same sections. */
module FlatVirtualFs {
  import opened Types
  import opened FlatBuffer

  datatype FlatError = NotFound | PermissionDenied | Io | BadFd

  type StoreError = e: FlatError | e != BadFd witness Io

  datatype Handle = Handle(path: string, file: OpenFile)

  /** How a request may go: a failed PUT may have landed, and a read through the content cache may
      answer with old bytes. */
  datatype Course = Honest | Fails(error: StoreError, lands: bool) | Stale(bytes: Bytes)

  /** The object store behind its cache. `course(n)` is how the request of number `n` goes. */
  class ObjectStore {
    var objects: map<string, Bytes>
    var requests: nat
    const course: nat -> Course

    constructor (objects: map<string, Bytes>, course: nat -> Course)
      ensures this.objects == objects && this.course == course && requests == 0
    {
      this.objects, this.requests := objects, 0;
      this.course := course;
    }

    function Object(path: string): Option<Bytes>
      reads this`objects
    {
      if path in objects then Some(objects[path]) else None
    }

    /** What `read(path).ok()` answers as the next request. */
    function Answer(path: string): Option<Bytes>
      reads this
    {
      match course(requests)
      case Honest => Object(path)
      case Fails(_, _) => None
      case Stale(bytes) => Some(bytes)
    }

    method Read(path: string) returns (r: Result<Bytes, FlatError>)
      modifies this`requests
      ensures requests == old(requests) + 1
      ensures r.Ok? <==> old(Answer(path)).Some?
      ensures r.Ok? ==> r.value == old(Answer(path)).value
    {
      var n := requests;
      requests := n + 1;
      match course(n)
      case Honest => return if path in objects then Ok(objects[path]) else Err(NotFound);
      case Fails(error, _) => return Err(error);
      case Stale(bytes) => return Ok(bytes);
    }

    /** The objects after the next request, if it is a PUT. */
    function AfterPut(path: string, data: Bytes): map<string, Bytes>
      reads this
    {
      if course(requests).Fails? && !course(requests).lands then objects else objects[path := data]
    }

    method Write(path: string, data: Bytes) returns (r: Result<(), FlatError>)
      modifies this`objects, this`requests
      ensures requests == old(requests) + 1 && objects == old(AfterPut(path, data))
      ensures r == if course(old(requests)).Fails? then Err(course(old(requests)).error) else Ok(())
    {
      var n := requests;
      requests := n + 1;
      if !course(n).Fails? || course(n).lands {
        objects := objects[path := data];
      }
      return if course(n).Fails? then Err(course(n).error) else Ok(());
    }
  }

  class FlatVfs {
    const op: ObjectStore
    var openFiles: map<nat, Handle>
    var nextFh: nat

    /** Handles are issued once. */
    ghost predicate Valid()
      reads this
    {
      forall fh | fh in openFiles :: fh < nextFh
    }

    constructor (op: ObjectStore)
      ensures Valid() && this.op == op && openFiles == map[]
    {
      this.op := op;
      openFiles, nextFh := map[], 1;
    }

    method Open(path: string) returns (fh: nat)
      requires Valid()
      modifies this
      ensures Valid() && fh !in old(openFiles) && openFiles == old(openFiles)[fh := Handle(path, OPENED)]
    {
      fh := nextFh;
      nextFh := nextFh + 1;
      openFiles := openFiles[fh := Handle(path, OpenFile([], false, 0))];
    }

    /** Unflushed bytes are served from the buffer; a clean handle defers to the backend. */
    method ReadDirty(fh: nat, offset: nat, size: nat) returns (r: Option<Bytes>)
      ensures r.Some? <==> fh in openFiles && openFiles[fh].file.dirty
      ensures r.Some? ==>
                var b := openFiles[fh].file.buffer;
                r.value == if offset >= |b| then [] else b[offset..Min(offset + size, |b|)]
    {
      if fh !in openFiles || !openFiles[fh].file.dirty {
        return None;
      }
      var buffer := openFiles[fh].file.buffer;
      if offset >= |buffer| {
        return Some([]);
      }
      var end := Min(offset + size, |buffer|);
      return Some(buffer[offset..end]);
    }

    /** The commit of FlatBuffer over what it installs there (`FlatBuffer.WholeWrite`). Only a handle with an
        empty clean buffer reads, once, and takes the answer as it comes. */
    method WriteAt(fh: nat, offset: nat, data: Bytes) returns (r: Result<nat, FlatError>)
      requires Valid()
      modifies this`openFiles, op`requests
      ensures Valid()
      ensures fh !in old(openFiles) ==>
                r == Err(BadFd) && openFiles == old(openFiles) && op.requests == old(op.requests)
      ensures fh in old(openFiles) ==>
                && r == Ok(|data| % U32)
                && var h := old(openFiles)[fh];
                   var existing := ReadFirst(h.file, old(op.Answer(h.path)));
                   && openFiles == old(openFiles)[fh :=
                        h.(file := CommitFile(InstallFile(h.file, existing), WriteReq(offset, data)))]
                   && op.requests == old(op.requests) + if Pristine(h.file) then 1 else 0
    {
      if fh !in openFiles {
        return Err(BadFd);
      }
      var needsRead := openFiles[fh].file.buffer == [] && !openFiles[fh].file.dirty;
      if needsRead {
        var path := openFiles[fh].path;
        var answer := op.Read(path);
        var h := openFiles[fh];
        if h.file.buffer == [] && !h.file.dirty && answer.Ok? {
          openFiles := openFiles[fh := h.(file := h.file.(buffer := answer.value))];
        }
      }
      var h := openFiles[fh];
      var end := offset + |data|;
      var buffer := h.file.buffer;
      if end > |buffer| {
        buffer := buffer + seq(end - |buffer|, _ => 0);
      }
      buffer := buffer[..offset] + data + buffer[end..];
      openFiles := openFiles[fh := h.(file := OpenFile(buffer, true, h.file.generation + 1))];
      return Ok(|data| % U32);
    }

    /** A clean handle has nothing to do. A successful PUT cleans the handle it was taken from. */
    method Flush(fh: nat) returns (r: Result<(), FlatError>)
      requires Valid()
      modifies this`openFiles, op`objects, op`requests
      ensures Valid()
      ensures fh !in old(openFiles) ==> r == Err(BadFd)
      ensures fh in old(openFiles) && !old(openFiles)[fh].file.dirty ==> r == Ok(())
      ensures fh in old(openFiles) && old(openFiles)[fh].file.dirty ==>
                var h, course := old(openFiles)[fh], op.course(old(op.requests));
                && op.requests == old(op.requests) + 1
                && op.objects == old(op.AfterPut(h.path, h.file.buffer))
                && r == (if course.Fails? then Err(course.error) else Ok(()))
                && openFiles == (if course.Fails? then old(openFiles)
                                 else old(openFiles)[fh := h.(file := h.file.(dirty := false))])
      ensures (fh in old(openFiles) && old(openFiles)[fh].file.dirty) ||
              (op.objects == old(op.objects) && op.requests == old(op.requests) && openFiles == old(openFiles))
    {
      if fh !in openFiles {
        return Err(BadFd);
      }
      if !openFiles[fh].file.dirty {
        return Ok(());
      }
      var path, data, generation := openFiles[fh].path, openFiles[fh].file.buffer, openFiles[fh].file.generation;
      var put := op.Write(path, data);
      if put.Err? {
        return put;
      }
      if fh in openFiles && openFiles[fh].file.generation == generation {
        var h := openFiles[fh];
        openFiles := openFiles[fh := h.(file := h.file.(dirty := false))];
      }
      return Ok(());
    }

    /** The handle goes away whether or not its flush succeeded; a dirty one is put exactly once. */
    method Release(fh: nat)
      requires Valid()
      modifies this`openFiles, op`objects, op`requests
      ensures Valid() && openFiles == old(openFiles) - {fh}
      ensures var dirty := fh in old(openFiles) && old(openFiles)[fh].file.dirty;
              && op.requests == old(op.requests) + (if dirty then 1 else 0)
              && op.objects == if dirty then old(op.AfterPut(openFiles[fh].path, openFiles[fh].file.buffer))
                               else old(op.objects)
    {
      var r := Flush(fh);
      openFiles := openFiles - {fh};
    }
  }
}
