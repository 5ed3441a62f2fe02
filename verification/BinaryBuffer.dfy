/** The append-only byte buffer every encoder writes into: fixed storage, a write position and a sticky error flag. */
module BinaryBuffer {
  import opened Octets

  class Buffer {
    var storage: array?<Octet>
    var shift: nat
    var errorsOccurred: bool

    // Everything any append was asked to write since the storage was allocated, whether or not it fitted.
    ghost var Attempted: seq<Octet>

    // An append was refused before the storage was allocated.
    ghost var FailedEarly: bool

    ghost predicate Valid()
      reads this, storage
    {
      && shift <= Capacity()
      && (errorsOccurred <==> FailedEarly || |Attempted| > Capacity())
      && (|Attempted| <= Capacity() ==> Used() == Attempted)
    }

    function Capacity(): nat
      reads this
    {
      if storage == null then 0 else storage.Length
    }

    /** The bytes a reader of the buffer sees. */
    function Used(): seq<Octet>
      requires shift <= Capacity()
      reads this, storage
    {
      if storage == null then [] else storage[..shift]
    }

    constructor ()
      ensures Valid() && storage == null && Used() == [] && !errorsOccurred
    {
      storage, shift, errorsOccurred := null, 0, false;
      Attempted, FailedEarly := [], false;
    }

    /** Allocates once; a second call is refused. Neither touches the error flag, which may have been set before. */
    method SetSize(size: nat) returns (ok: bool)
      requires Valid()
      modifies this
      ensures Valid()
      ensures Used() == old(Used()) && errorsOccurred == old(errorsOccurred)
      ensures ok <==> old(storage) == null
      ensures ok ==> storage != null && fresh(storage) && Capacity() == size
      ensures ok ==> Attempted == [] && FailedEarly == old(errorsOccurred)
      ensures !ok ==> storage == old(storage) && Attempted == old(Attempted) && FailedEarly == old(FailedEarly)
    {
      if storage != null {
        return false;
      }
      storage := new Octet[size](i => 0);
      Attempted, FailedEarly := [], errorsOccurred;
      return true;
    }

    /** Writes all of `bytes` or nothing; one refusal marks the buffer as failed for good. */
    method Append(bytes: seq<Octet>) returns (ok: bool)
      requires Valid()
      modifies this, storage
      ensures Valid()
      ensures storage == old(storage)
      ensures Attempted == old(Attempted) + bytes && FailedEarly == old(FailedEarly)
      ensures ok <==> |old(Used())| + |bytes| <= Capacity()
      ensures Used() == if ok then old(Used()) + bytes else old(Used())
      ensures errorsOccurred <==> old(errorsOccurred) || !ok
    {
      Attempted := Attempted + bytes;
      if shift + |bytes| > Capacity() {
        errorsOccurred := true;
        return false;
      }
      if storage != null {
        forall i | 0 <= i < |bytes| {
          storage[shift + i] := bytes[i];
        }
      }
      shift := shift + |bytes|;
      return true;
    }

    /** An append whose verdict the caller leaves to the sticky flag, as the encoders do. */
    method Write(bytes: seq<Octet>)
      requires Valid()
      modifies this, storage
      ensures Valid()
      ensures storage == old(storage)
      ensures Attempted == old(Attempted) + bytes && FailedEarly == old(FailedEarly)
    {
      var _ := Append(bytes);
    }

    /** Copies the used bytes of another buffer. */
    method AppendBuffer(other: Buffer) returns (ok: bool)
      requires Valid() && other.Valid() && other != this
      modifies this, storage
      ensures Valid()
      ensures storage == old(storage)
      ensures Attempted == old(Attempted) + old(other.Used()) && FailedEarly == old(FailedEarly)
      ensures ok <==> |old(Used())| + |old(other.Used())| <= Capacity()
      ensures Used() == if ok then old(Used()) + old(other.Used()) else old(Used())
      ensures errorsOccurred <==> old(errorsOccurred) || !ok
    {
      ok := Append(other.Used());
    }
  }
}
