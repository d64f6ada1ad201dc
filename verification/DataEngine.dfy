/** The object store under the cache: slices stored under their keys, any call may fail. */
module DataEngines {
  import opened Types
  import opened SliceKey

  datatype DataError = NotFound(key: string) | Backend

  /** `objects` stores exactly these slices, under their keys below `base`. */
  ghost predicate Mirrors(base: string, objects: map<string, Bytes>, slices: map<nat, Bytes>) {
    forall id: nat ::
      && (KeyUnder(base, id) in objects <==> id in slices)
      && (id in slices ==> objects[KeyUnder(base, id)] == slices[id])
  }

  /** Keys are injective, so storing or removing one slice touches no other. */
  lemma MirrorsPut(base: string, objects: map<string, Bytes>, slices: map<nat, Bytes>, id: nat, data: Bytes)
    requires Mirrors(base, objects, slices)
    ensures Mirrors(base, objects[KeyUnder(base, id) := data], slices[id := data])
  {
    forall other: nat ensures KeyUnder(base, other) == KeyUnder(base, id) <==> other == id {
      KeyInjective(base, other, id);
    }
  }

  lemma MirrorsDrop(base: string, objects: map<string, Bytes>, slices: map<nat, Bytes>, id: nat)
    requires Mirrors(base, objects, slices)
    ensures Mirrors(base, objects - {KeyUnder(base, id)}, slices - {id})
  {
    forall other: nat ensures KeyUnder(base, other) == KeyUnder(base, id) <==> other == id {
      KeyInjective(base, other, id);
    }
  }

  /** How a call fails: before it took effect, or behind it. */
  datatype Fault = Fault(lands: bool)

  /** The call takes effect, whatever it answers. */
  predicate Landed(fault: Option<Fault>) { fault.None? || fault.value.lands }

  /** Calls are numbered, and `faults(n)` tells whether and how the one of number `n` fails. */
  class DataEngine {
    var objects: map<string, Bytes>
    var calls: nat
    const faults: nat -> Option<Fault>
    /** The same contents seen by slice id. */
    ghost var slices: map<nat, Bytes>

    ghost predicate Valid()
      reads this`objects, this`slices
    {
      Mirrors("slices", objects, slices)
    }

    /** The next call will not fail. */
    predicate Works()
      reads this`calls
    {
      faults(calls).None?
    }

    /** None of the calls with these numbers fails. */
    ghost predicate WorkedFor(from: nat, to: nat) {
      forall n | from <= n < to :: faults(n).None?
    }

    /** What the next call answers if it asks for this slice. */
    ghost function Answer(id: nat): Result<Bytes, DataError>
      reads this`calls, this`slices
    {
      if !Works() then Err(Backend)
      else if id in slices then Ok(slices[id])
      else Err(NotFound(BackendKey(id)))
    }

    constructor (faults: nat -> Option<Fault>)
      ensures Valid() && slices == map[] && calls == 0 && this.faults == faults
    {
      objects, calls := map[], 0;
      this.faults := faults;
      slices := map[];
    }

    method ReadSlice(id: nat) returns (r: Result<Bytes, DataError>)
      requires Valid()
      modifies this`calls
      ensures calls == old(calls) + 1 && r == old(Answer(id))
    {
      var key := BackendKey(id);
      var fault := faults(calls);
      calls := calls + 1;
      if fault.Some? {
        return Err(Backend);
      }
      if key in objects {
        return Ok(objects[key]);
      }
      return Err(NotFound(key));
    }

    /** A failed PUT may or may not have landed. */
    method WriteSlice(id: nat, data: Bytes) returns (ok: bool)
      requires Valid()
      modifies this
      ensures Valid() && calls == old(calls) + 1 && ok == old(Works())
      ensures old(Works()) || faults(old(calls)).value.lands ==> slices == old(slices)[id := data]
      ensures !old(Works()) && !faults(old(calls)).value.lands ==> slices == old(slices)
    {
      var key := BackendKey(id);
      var fault := faults(calls);
      calls := calls + 1;
      if Landed(fault) {
        MirrorsPut("slices", objects, slices, id, data);
        objects := objects[key := data];
        slices := slices[id := data];
      }
      return fault.None?;
    }

    method DeleteSlice(id: nat) returns (ok: bool)
      requires Valid()
      modifies this
      ensures Valid() && calls == old(calls) + 1 && ok == old(Works())
      ensures old(Works()) || faults(old(calls)).value.lands ==> slices == old(slices) - {id}
      ensures !old(Works()) && !faults(old(calls)).value.lands ==> slices == old(slices)
    {
      var key := BackendKey(id);
      var fault := faults(calls);
      calls := calls + 1;
      if Landed(fault) {
        MirrorsDrop("slices", objects, slices, id);
        objects := objects - {key};
        slices := slices - {id};
      }
      return fault.None?;
    }
  }
}
