/**
 * `cbor::Writer` of src/cbor.h and src/cbor.cc: a growable byte buffer `vec`
 * with a write cursor `index`.  The buffer grows in 512-byte chunks; `binary()`
 * trims it to the bytes written.
 */
module CborWriter {
  import opened Base
  import opened BigEndian

  const CHUNK: nat := 512

  /** The capacity check_space asks for: need rounded up to a multiple of 512. */
  function Capacity(need: nat): (c: nat)
    ensures c % CHUNK == 0
    ensures need <= c < need + CHUNK
  {
    var q := (need + CHUNK - 1) / CHUNK;
    RoundUp(need, q, (need + CHUNK - 1) % CHUNK);
    q * CHUNK
  }

  lemma RoundUp(need: nat, q: nat, r: nat)
    requires need + CHUNK - 1 == q * CHUNK + r && r < CHUNK
    ensures (q * CHUNK) % CHUNK == 0 && need <= q * CHUNK < need + CHUNK
  {
  }

  /** No smaller multiple of 512 holds need bytes. */
  lemma CapacitySmallest(need: nat, c: nat)
    requires c % CHUNK == 0 && need <= c
    ensures Capacity(need) <= c
  {
  }

  class Writer {
    var vec: seq<uint8>
    var index: nat

    ghost predicate Valid()
      reads this
    {
      index <= |vec|
    }

    /** Everything written so far, in order. */
    ghost function Written(): seq<uint8>
      reads this
      requires Valid()
    {
      vec[..index]
    }

    constructor ()
      ensures Valid() && vec == [] && index == 0
    {
      vec := [];
      index := 0;
    }

    /** check_space: grow to the next multiple of 512 when add bytes do not fit. */
    method CheckSpace(add: nat)
      requires Valid()
      modifies this`vec
      ensures Valid() && index + add <= |vec|
      ensures old(|vec|) < index + add ==> |vec| == Capacity(index + add)
      ensures old(|vec|) >= index + add ==> vec == old(vec)
      ensures |vec| >= old(|vec|) && vec[..old(|vec|)] == old(vec)
    {
      if |vec| < index + add {
        var need := Capacity(index + add);
        vec := vec + seq(need - |vec|, _ => 0);
      }
    }

    /** write_character */
    method WriteCharacter(b: uint8)
      requires Valid()
      modifies this
      ensures Valid() && Written() == old(Written()) + [b]
      ensures |vec| >= old(|vec|)
    {
      CheckSpace(1);
      vec := vec[index := b];
      index := index + 1;
    }

    /** append_cbor_binary (and `operator+=`): copy bytes at the cursor. */
    method AppendCborBinary(bytes: seq<uint8>)
      requires Valid()
      modifies this
      ensures Valid() && Written() == old(Written()) + bytes
      ensures |vec| >= old(|vec|)
    {
      CheckSpace(|bytes|);
      vec := vec[..index] + bytes + vec[index + |bytes|..];
      index := index + |bytes|;
    }

    /** write_characters(ptr, size): the same copy from a raw buffer. */
    method WriteCharacters(bytes: seq<uint8>)
      requires Valid()
      modifies this
      ensures Valid() && Written() == old(Written()) + bytes
      ensures |vec| >= old(|vec|)
    {
      CheckSpace(|bytes|);
      var i := 0;
      while i < |bytes|
        invariant 0 <= i <= |bytes|
        invariant |vec| == old(|vec|) || |vec| >= old(index) + |bytes|
        invariant index + |bytes| - i <= |vec| && index == old(index) + i
        invariant vec[..index] == old(Written()) + bytes[..i]
        invariant |vec| >= old(|vec|)
      {
        vec := vec[index := bytes[i]];
        index := index + 1;
        i := i + 1;
      }
    }

    /** write_number<T>(v): the big-endian bytes of v, `width` = sizeof(T). */
    method WriteNumber(x: nat, width: nat)
      requires Valid() && x < Pow256(width)
      modifies this
      ensures Valid() && Written() == old(Written()) + EncodeNumber(x, width)
    {
      AppendCborBinary(EncodeNumber(x, width));
    }

    /** binary(): trims the buffer to the bytes written and returns it. */
    method Binary() returns (r: seq<uint8>)
      requires Valid()
      modifies this`vec
      ensures Valid() && r == old(Written()) && vec == r
    {
      vec := vec[..index];
      r := vec;
    }
  }
}
